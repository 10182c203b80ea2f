/** compaction_iter.go: the iterator that collapses versions inside snapshot stripes. */
module CompactionIter {
  import opened Wrappers
  import opened InternalKeys
  import opened RangeDel

  ghost predicate Ascending(snapshots: seq<nat>) {
    forall i, j :: 0 <= i < j < |snapshots| ==> snapshots[i] <= snapshots[j]
  }

  /** The stripe of a sequence number: the index of the first snapshot greater than it. */
  function SnapshotIndex(seqNum: nat, snapshots: seq<nat>): (index: nat)
    requires Ascending(snapshots)
    ensures index <= |snapshots|
    ensures forall i :: 0 <= i < index ==> snapshots[i] <= seqNum
    ensures forall i :: index <= i < |snapshots| ==> seqNum < snapshots[i]
  {
    SearchSnapshots(seqNum, snapshots, |snapshots|)
  }

  function SearchSnapshots(seqNum: nat, snapshots: seq<nat>, n: nat): (index: nat)
    requires Ascending(snapshots) && n <= |snapshots|
    requires forall i :: n <= i < |snapshots| ==> seqNum < snapshots[i]
    ensures index <= n
    ensures forall i :: 0 <= i < index ==> snapshots[i] <= seqNum
    ensures forall i :: index <= i < |snapshots| ==> seqNum < snapshots[i]
  {
    if n == 0 || snapshots[n - 1] <= seqNum then n else SearchSnapshots(seqNum, snapshots, n - 1)
  }

  /** What one compaction works on. */
  datatype Job = Job(
    input: seq<Entry>,           // the merged input, range tombstones included as markers
    tombs: seq<Tombstone>,       // the range tombstones of the input
    kept: seq<Tombstone>,        // those that reach the output
    snapshots: seq<nat>,
    lower: seq<Entry>,           // the point entries below the output level
    lowerTombs: seq<Tombstone>,  // and the range tombstones there
    endOf: Entry -> Key,         // the end key that the value of a marker encodes
    merge: Merger,
    allowZeroSeqNum: bool,
    elideTombstone: Key -> bool)
  {
    function Stripe(seqNum: nat): nat
      requires Ascending(snapshots)
    {
      SnapshotIndex(seqNum, snapshots)
    }

    /** A kept tombstone of the same stripe covers `key` as well as `t` does, or nothing
        that the bottom stripe could cover lies below. */
    ghost predicate Keeps(t: Tombstone, key: Key)
      requires Ascending(snapshots)
    {
      || (Stripe(t.seqNum) == 0 && forall l :: l in lower ==> l.key != key)
      || exists u :: u in kept && u.Contains(key) && Stripe(u.seqNum) == Stripe(t.seqNum) && u.seqNum >= t.seqNum
    }

    ghost predicate KeepsCoverage()
      requires Ascending(snapshots)
    {
      && (forall t :: t in kept ==> t in tombs)
      && (forall t, key {:trigger Keeps(t, key)} :: t in tombs && t.Contains(key) ==> Keeps(t, key))
      && (allowZeroSeqNum ==> forall t :: t in kept ==> Stripe(t.seqNum) > 0)
    }

    ghost predicate Valid()
      ensures Valid() ==> Ascending(snapshots)
      ensures Valid() ==> forall e :: e in input ==> e.kind != SingleDelete
    {
      Sound() && KeepsCoverage()
    }

    /** What does not depend on the tombstones that are kept. */
    ghost predicate Sound()
      ensures Sound() ==> Ascending(snapshots)
    {
      && Ascending(snapshots)
      && Sorted(input)
      && Associative(merge)
      && (forall e :: e in input ==> e.seqNum < SEQ_NUM_BATCH && e.kind != SingleDelete)
      && (forall t :: t in tombs ==> t.seqNum < SEQ_NUM_BATCH)
      && TellsOf(input, tombs)
      && (forall l :: l in lower ==> l.seqNum < SEQ_NUM_BATCH)
      // the level invariant: the same key is older below
      && (forall e, l :: e in input && e.IsPoint() && l in lower && e.key == l.key ==> l.seqNum < e.seqNum)
      && (forall e, t :: e in input && e.IsPoint() && t in lowerTombs && t.Contains(e.key) ==> t.seqNum <= e.seqNum)
      && ElidesNothingBelow()
    }

    function OfMarker(marker: Entry): Tombstone {
      Tombstone(marker.key, endOf(marker), marker.seqNum)
    }

    /** Some marker among `es` deletes `key` at `seqNum`. */
    ghost predicate MarksAt(es: seq<Entry>, key: Key, seqNum: nat) {
      exists m :: m in es && m.kind == RangeDelete && m.seqNum == seqNum && OfMarker(m).Contains(key)
    }

    /** The markers among `es` delete what `frag`, which may be cut up differently, deletes. */
    ghost predicate TellsOf(es: seq<Entry>, frag: seq<Tombstone>) {
      forall key, seqNum :: CoversAt(frag, key, seqNum) <==> MarksAt(es, key, seqNum)
    }

    /** What the elision callbacks promise: no tombstone is elided that hides something below, and sequence
        numbers are zeroed only when nothing below has or covers a key of the input. */
    ghost predicate ElidesNothingBelow() {
      && (forall e, l :: e in input && l in lower && e.key == l.key ==> !elideTombstone(e.key))
      && (allowZeroSeqNum ==> forall e, l :: e in input && l in lower ==> e.key != l.key)
      && (allowZeroSeqNum ==> forall e, t :: e in input && t in lowerTombs ==> !t.Contains(e.key))
    }

    /** A sequence number that reads must keep working at: a snapshot, or one newer than the input. */
    ghost predicate Relevant(s: nat) {
      || s in snapshots
      || ((forall e :: e in input ==> e.seqNum < s) && (forall t :: t in tombs ==> t.seqNum < s))
    }

    ghost function ReadLower(key: Key, s: nat): Option<Value> {
      Read(lower, tombs + lowerTombs, merge, key, s, None)
    }

    /** Reads entries of the input on top of the levels below. */
    ghost function ReadInput(es: seq<Entry>, key: Key, s: nat): Option<Value> {
      Read(es, tombs, merge, key, s, ReadLower(key, s))
    }

    /** Reads what was emitted on top of what is still to be processed. */
    ghost function ReadMixed(emitted: seq<Entry>, pending: seq<Entry>, key: Key, s: nat): Option<Value> {
      Read(emitted, kept, merge, key, s, ReadInput(pending, key, s))
    }

    ghost predicate Refines(emitted: seq<Entry>, pending: seq<Entry>) {
      forall key, s :: Relevant(s) ==> ReadMixed(emitted, pending, key, s) == ReadInput(input, key, s)
    }

    /** Replacing `before` by `after` does not change what is read. */
    ghost predicate Drops(before: seq<Entry>, after: seq<Entry>) {
      forall key, s :: Relevant(s) ==> ReadInput(before, key, s) == ReadInput(after, key, s)
    }

    /** Emitting `out` and going from `before` to `after` does not change what is read. */
    ghost predicate Emits(out: Entry, before: seq<Entry>, after: seq<Entry>) {
      forall key, s :: Relevant(s) ==>
        ReadInput(before, key, s) == ReadOne(out, kept, merge, key, s, ReadInput(after, key, s))
    }

    /** The input from `i` without the point entries of `key` in the stripe that it starts in. */
    ghost function SkipStripe(i: nat, key: Key, stripe: nat): seq<Entry>
      requires Ascending(snapshots) && i <= |input|
      decreases |input| - i
    {
      if i == |input| || input[i].key != key || Stripe(input[i].seqNum) != stripe then input[i..]
      else if input[i].kind == RangeDelete then [input[i]] + SkipStripe(i + 1, key, stripe)
      else SkipStripe(i + 1, key, stripe)
    }

    /** rangeDelFrag.Deleted, on the tombstones `frag`, at the snapshot that closes the stripe of `e`. */
    predicate DeletedBy(frag: seq<Tombstone>, e: Entry)
      requires Ascending(snapshots)
    {
      var i := Stripe(e.seqNum);
      Covered(frag, e.key, e.seqNum, if i < |snapshots| then snapshots[i] else SEQ_NUM_MAX)
    }

    ghost predicate Deleted(e: Entry)
      requires Ascending(snapshots)
    {
      DeletedBy(tombs, e)
    }
  }

  // --- stripes -------------------------------------------------------------

  /** Every read that must keep working sees all of a stripe or nothing of it. */
  lemma {:induction false} StripeVisible(job: Job, a: nat, b: nat, s: nat)
    requires job.Valid() && job.Relevant(s)
    requires a < SEQ_NUM_BATCH && b < SEQ_NUM_BATCH
    requires job.Stripe(a) == job.Stripe(b)
    requires s !in job.snapshots ==> a < s && b < s
    ensures Visible(a, s) <==> Visible(b, s)
  {
    if s in job.snapshots {
      var i :| 0 <= i < |job.snapshots| && job.snapshots[i] == s;
    }
  }

  lemma {:induction false} StripeMonotone(job: Job, a: nat, b: nat)
    requires job.Valid() && a <= b
    ensures job.Stripe(a) <= job.Stripe(b)
    ensures job.Stripe(a) < job.Stripe(b) ==> a < b
  {
    var i, j := job.Stripe(a), job.Stripe(b);
    assert j < |job.snapshots| ==> b < job.snapshots[j];
  }

  /** `Deleted` is: a tombstone of the same stripe covers the entry. */
  lemma {:induction false} DeletedInStripe(job: Job, e: Entry)
    requires job.Valid() && e.seqNum < SEQ_NUM_BATCH
    ensures job.Deleted(e) <==>
      exists t :: t in job.tombs && t.Contains(e.key) && t.seqNum > e.seqNum && job.Stripe(t.seqNum) == job.Stripe(e.seqNum)
  {
    var i := job.Stripe(e.seqNum);
    var bound := if i < |job.snapshots| then job.snapshots[i] else SEQ_NUM_MAX;
    forall t | t in job.tombs && t.seqNum > e.seqNum
      ensures Visible(t.seqNum, bound) <==> job.Stripe(t.seqNum) == i
    {
      StripeMonotone(job, e.seqNum, t.seqNum);
    }
  }

  // --- local rewrites ------------------------------------------------------

  /** Skipping entries that the read does not count anyway. */
  lemma {:induction false} SkipUncounted(job: Job, i: nat, key: Key, stripe: nat, k: Key, s: nat)
    requires job.Valid() && i <= |job.input|
    requires forall e :: e in job.input[i..] && e.key == key && job.Stripe(e.seqNum) == stripe && e.IsPoint()
                         ==> !Counts(e, job.tombs, k, s)
    ensures job.ReadInput(job.SkipStripe(i, key, stripe), k, s) == job.ReadInput(job.input[i..], k, s)
    decreases |job.input| - i
  {
    if i == |job.input| || job.input[i].key != key || job.Stripe(job.input[i].seqNum) != stripe {
    } else {
      TailIn(job, i);
      SkipUncounted(job, i + 1, key, stripe, k, s);
      ReadCons(job, job.input[i], job.input[i + 1..], k, s);
      ReadCons(job, job.input[i], job.SkipStripe(i + 1, key, stripe), k, s);
    }
  }

  /** A version that does not count hides, at the same read, the older versions of its stripe. */
  lemma {:induction false} OlderUncounted(job: Job, e: Entry, n: Entry, k: Key, s: nat)
    requires job.Valid() && job.Relevant(s) && e in job.input && n in job.input
    requires n.key == e.key && n.seqNum <= e.seqNum && job.Stripe(n.seqNum) == job.Stripe(e.seqNum)
    requires !Counts(e, job.tombs, k, s)
    ensures !Counts(n, job.tombs, k, s)
  {
    StripeVisible(job, e.seqNum, n.seqNum, s);
  }

  lemma {:induction false} TailIn(job: Job, i: nat)
    requires job.Valid() && i < |job.input|
    ensures forall n :: n in job.input[i + 1..] ==> n in job.input && Less(job.input[i], n)
    ensures job.input[i..] == [job.input[i]] + job.input[i + 1..]
  {
  }

  /** The rest of the stripe may go when the entry at `i` does not count. */
  lemma {:induction false} SkipOlder(job: Job, i: nat, k: Key, s: nat)
    requires job.Valid() && job.Relevant(s) && i < |job.input|
    requires !Counts(job.input[i], job.tombs, k, s)
    ensures var e := job.input[i];
            job.ReadInput(job.SkipStripe(i + 1, e.key, job.Stripe(e.seqNum)), k, s)
            == job.ReadInput(job.input[i + 1..], k, s)
  {
    var e := job.input[i];
    TailIn(job, i);
    forall n | n in job.input[i + 1..] && n.key == e.key && job.Stripe(n.seqNum) == job.Stripe(e.seqNum) && n.IsPoint()
      ensures !Counts(n, job.tombs, k, s)
    {
      OlderUncounted(job, e, n, k, s);
    }
    SkipUncounted(job, i + 1, e.key, job.Stripe(e.seqNum), k, s);
  }

  /** Everything older than a covered version reads as deleted, the levels below included. */
  lemma {:induction false} CoveredReadsNone(job: Job, i: nat, t: Tombstone, s: nat)
    requires job.Valid() && job.Relevant(s) && i < |job.input| && job.input[i].IsPoint()
    requires t in job.tombs && t.Contains(job.input[i].key) && t.seqNum > job.input[i].seqNum && Visible(t.seqNum, s)
    ensures job.ReadInput(job.input[i..], job.input[i].key, s) == None
    ensures job.ReadInput(job.input[i + 1..], job.input[i].key, s) == None
  {
    var e := job.input[i];
    TailIn(job, i);
    forall l | l in job.lower ensures !Counts(l, job.tombs + job.lowerTombs, e.key, s) {
      assert l.key == e.key ==> l.seqNum < e.seqNum;
      assert t in job.tombs + job.lowerTombs;
    }
    ReadNone(job.lower, job.tombs + job.lowerTombs, job.merge, e.key, s, None);
    ReadNone(job.input[i + 1..], job.tombs, job.merge, e.key, s, None);
    ReadNone(job.input[i..], job.tombs, job.merge, e.key, s, None);
  }

  /** compaction_iter.go:273-277: a version deleted inside its stripe takes the rest of the stripe with it. */
  lemma {:induction false} DropDeleted(job: Job, i: nat)
    requires job.Valid() && i < |job.input| && job.Deleted(job.input[i])
    ensures var e := job.input[i];
            job.Drops(job.input[i..], job.SkipStripe(i + 1, e.key, job.Stripe(e.seqNum)))
  {
    var e := job.input[i];
    TailIn(job, i);
    DeletedInStripe(job, e);
    var t :| t in job.tombs && t.Contains(e.key) && t.seqNum > e.seqNum && job.Stripe(t.seqNum) == job.Stripe(e.seqNum);
    forall k, s | job.Relevant(s)
      ensures job.ReadInput(job.input[i..], k, s)
           == job.ReadInput(job.SkipStripe(i + 1, e.key, job.Stripe(e.seqNum)), k, s)
    {
      StripeVisible(job, e.seqNum, t.seqNum, s);
      SkipOlder(job, i, k, s);
    }
  }

  /** compaction_iter.go:283-287: a tombstone of the bottom stripe with nothing below. */
  lemma {:induction false} DropElided(job: Job, i: nat)
    requires job.Valid() && i < |job.input|
    requires job.input[i].kind == Delete && job.Stripe(job.input[i].seqNum) == 0 && job.elideTombstone(job.input[i].key)
    ensures var e := job.input[i];
            job.Drops(job.input[i..], job.SkipStripe(i + 1, e.key, job.Stripe(e.seqNum)))
  {
    var e := job.input[i];
    TailIn(job, i);
    var rest := job.SkipStripe(i + 1, e.key, 0);
    forall k, s | job.Relevant(s)
      ensures job.ReadInput(job.input[i..], k, s) == job.ReadInput(rest, k, s)
    {
      if Counts(e, job.tombs, k, s) {
        SkipLeaves(job, i, i + 1);
        ReadNone(job.lower, job.tombs + job.lowerTombs, job.merge, k, s, None);
        assert forall n :: n in rest ==> n.key != k || !n.IsPoint();
        ReadMarkers(rest, job.tombs, job.merge, k, s, None);
      } else {
        SkipOlder(job, i, k, s);
      }
    }
  }

  /** What is left after the stripe of the entry at `i`: later keys, lower stripes and markers. */
  lemma {:induction false} SkipLeaves(job: Job, i: nat, j: nat)
    requires job.Valid() && i < j <= |job.input|
    ensures var e := job.input[i];
            forall n :: n in job.SkipStripe(j, e.key, job.Stripe(e.seqNum)) ==>
              n in job.input[j..] && (n.IsPoint() && n.key == e.key ==> job.Stripe(n.seqNum) < job.Stripe(e.seqNum))
    decreases |job.input| - j
  {
    var e := job.input[i];
    if j == |job.input| {
    } else if job.input[j].key == e.key && job.Stripe(job.input[j].seqNum) == job.Stripe(e.seqNum) {
      TailIn(job, j);
      SkipLeaves(job, i, j + 1);
    } else {
      var f := job.input[j];
      TailIn(job, j);
      assert Less(e, f);
      forall n | n in job.input[j..] && n.key == e.key ensures job.Stripe(n.seqNum) < job.Stripe(e.seqNum) {
        assert n == f || Less(f, n);
        StripeMonotone(job, f.seqNum, e.seqNum);
        StripeMonotone(job, n.seqNum, f.seqNum);
      }
    }
  }

  lemma {:induction false} StripeIn(job: Job, i: nat)
    requires job.Valid() && i < |job.input|
    ensures forall n :: n in job.SkipStripe(i + 1, job.input[i].key, job.Stripe(job.input[i].seqNum)) ==>
      n in job.input[i..]
  {
    hide Job.Valid, Job.SkipStripe;
    SkipLeaves(job, i, i + 1);
    assert job.input[i..] == [job.input[i]] + job.input[i + 1..];
  }

  /** Tombstone markers of the key do not change what is read. */
  lemma {:induction false} ReadMarkers(
      es: seq<Entry>, tombs: seq<Tombstone>, merge: Merger, k: Key, s: nat, older: Option<Value>)
    requires forall n :: n in es ==> n.key != k || !n.IsPoint()
    ensures Read(es, tombs, merge, k, s, older) == older
  {
    if es != [] {
      ReadMarkers(es[1..], tombs, merge, k, s, older);
    }
  }

  /** `out` stands in for `e`: same user key, and the same sequence number or a permitted zero. */
  ghost predicate StandsFor(job: Job, out: Entry, e: Entry)
    requires job.Valid()
  {
    && out.key == e.key
    && (out.seqNum == e.seqNum || (out.seqNum == 0 && job.allowZeroSeqNum && job.Stripe(e.seqNum) == 0))
  }

  /** Outside its own stripe an entry is covered by the kept tombstones just when it was covered at all. */
  lemma {:induction false} KeptCovers(job: Job, e: Entry, s: nat)
    requires job.Valid() && job.Relevant(s) && e in job.input && !job.Deleted(e)
    ensures Covered(job.tombs, e.key, e.seqNum, s) <==> Covered(job.kept, e.key, e.seqNum, s)
  {
    if Covered(job.tombs, e.key, e.seqNum, s) {
      DeletedInStripe(job, e);
      var t :| t in job.tombs && t.Contains(e.key) && t.seqNum > e.seqNum && Visible(t.seqNum, s);
      StripeMonotone(job, e.seqNum, t.seqNum);
      assert job.Keeps(t, e.key);
      var u :| u in job.kept && u.Contains(e.key) && job.Stripe(u.seqNum) == job.Stripe(t.seqNum) && u.seqNum >= t.seqNum;
      StripeVisible(job, t.seqNum, u.seqNum, s);
    }
  }

  /** A zeroed entry of the bottom stripe is seen and covered as before. */
  lemma {:induction false} ZeroCovers(job: Job, e: Entry, s: nat)
    requires job.Valid() && job.Relevant(s) && e in job.input && job.allowZeroSeqNum && job.Stripe(e.seqNum) == 0
    ensures Visible(e.seqNum, s) && Visible(0, s)
    ensures Covered(job.kept, e.key, e.seqNum, s) <==> Covered(job.kept, e.key, 0, s)
  {
    if s in job.snapshots { var i :| 0 <= i < |job.snapshots| && job.snapshots[i] == s; }
    forall t | t in job.kept ensures t.seqNum > e.seqNum {
      StripeMonotone(job, t.seqNum, if t.seqNum <= e.seqNum then e.seqNum else t.seqNum);
    }
  }

  /** An entry that its own stripe does not delete counts, at every relevant read, under the
      kept tombstones just when it counted under all of them. */
  lemma {:induction false} KeptCounts(job: Job, e: Entry, out: Entry, k: Key, s: nat)
    requires job.Valid() && job.Relevant(s) && e in job.input && !job.Deleted(e) && StandsFor(job, out, e)
    ensures Counts(e, job.tombs, k, s) <==> Counts(out, job.kept, k, s)
  {
    KeptCovers(job, e, s);
    if out.seqNum != e.seqNum { ZeroCovers(job, e, s); }
  }

  /** compaction_iter.go:290-311: a Set or a Delete is emitted and shadows the rest of its stripe. */
  lemma {:induction false} EmitPoint(job: Job, i: nat, out: Entry)
    requires job.Valid() && i < |job.input| && !job.Deleted(job.input[i]) && StandsFor(job, out, job.input[i])
    requires out.kind == job.input[i].kind && (out.kind == Delete || out.kind == Set) && out.value == job.input[i].value
    ensures var e := job.input[i];
            job.Emits(out, job.input[i..], job.SkipStripe(i + 1, e.key, job.Stripe(e.seqNum)))
  {
    var e := job.input[i];
    TailIn(job, i);
    var rest := job.SkipStripe(i + 1, e.key, job.Stripe(e.seqNum));
    forall k, s | job.Relevant(s)
      ensures job.ReadInput(job.input[i..], k, s) == ReadOne(out, job.kept, job.merge, k, s, job.ReadInput(rest, k, s))
    {
      KeptCounts(job, e, out, k, s);
      if !Counts(e, job.tombs, k, s) {
        SkipOlder(job, i, k, s);
      }
    }
  }

  // --- merge chains --------------------------------------------------------

  /** The operands [from, to] of one stripe, folded into `acc`. */
  ghost predicate Folded(job: Job, from: nat, to: nat, acc: Value)
    requires job.Valid()
  {
    && from <= to < |job.input|
    && job.input[from].kind == InternalKeys.Kind.Merge && !job.Deleted(job.input[from])
    && job.Drops(job.input[from..], [job.input[from].(value := acc)] + job.input[to + 1..])
  }

  /** Undeleted versions of one stripe count at the same reads. */
  lemma {:induction false} SameCounts(job: Job, i: nat, j: nat, k: Key, s: nat)
    requires job.Valid() && job.Relevant(s) && i < j < |job.input|
    requires job.input[i].key == job.input[j].key && job.Stripe(job.input[i].seqNum) == job.Stripe(job.input[j].seqNum)
    requires !job.Deleted(job.input[j])
    ensures Counts(job.input[i], job.tombs, k, s) <==> Counts(job.input[j], job.tombs, k, s)
  {
    var a, b := job.input[i], job.input[j];
    assert Less(a, b);
    StripeVisible(job, a.seqNum, b.seqNum, s);
    DeletedInStripe(job, b);
    if a.key == k && Covered(job.tombs, k, b.seqNum, s) && !Covered(job.tombs, k, a.seqNum, s) {
      var t :| t in job.tombs && t.Contains(k) && t.seqNum > b.seqNum && Visible(t.seqNum, s);
      StripeMonotone(job, b.seqNum, t.seqNum);
      StripeMonotone(job, t.seqNum, a.seqNum);
      assert false;
    }
  }

  lemma {:induction false} ReadCons(job: Job, e: Entry, es: seq<Entry>, k: Key, s: nat)
    ensures job.ReadInput([e] + es, k, s) == ReadOne(e, job.tombs, job.merge, k, s, job.ReadInput(es, k, s))
  {
    assert ([e] + es)[1..] == es;
  }

  lemma {:induction false} FoldStart(job: Job, i: nat)
    requires job.Valid() && i < |job.input|
    requires job.input[i].kind == InternalKeys.Kind.Merge && !job.Deleted(job.input[i])
    ensures Folded(job, i, i, job.input[i].value)
  {
    TailIn(job, i);
    assert job.input[i].(value := job.input[i].value) == job.input[i];
  }

  /** compaction_iter.go:500-505: one more operand of the stripe is folded in. */
  lemma {:induction false} FoldMerge(job: Job, from: nat, to: nat, acc: Value)
    requires job.Valid() && Folded(job, from, to, acc) && SameStripe(job, from, to + 1)
    requires job.input[to + 1].kind == InternalKeys.Kind.Merge && !job.Deleted(job.input[to + 1])
    ensures Folded(job, from, to + 1, job.merge(Some(job.input[from].key), job.input[to + 1].value, acc))
  {
    var m, n := job.input[from], job.input[to + 1];
    var op := (a, b) => job.merge(Some(m.key), a, b);
    var m', rest := m.(value := op(n.value, acc)), job.input[to + 2..];
    TailIn(job, to + 1);
    forall k, s | job.Relevant(s)
      ensures job.ReadInput(job.input[from..], k, s) == job.ReadInput([m'] + rest, k, s)
    {
      assert job.ReadInput(job.input[from..], k, s)
          == job.ReadInput([m.(value := acc)] + job.input[to + 1..], k, s);
      SameCounts(job, from, to + 1, k, s);
      ReadCons(job, m.(value := acc), job.input[to + 1..], k, s);
      ReadCons(job, n, rest, k, s);
      ReadCons(job, m', rest, k, s);
      assert Counts(m, job.tombs, k, s) <==> Counts(m.(value := acc), job.tombs, k, s);
      assert Counts(m, job.tombs, k, s) <==> Counts(m', job.tombs, k, s);
      match job.ReadInput(rest, k, s) {
        case None =>
        case Some(v) => assert op(op(v, n.value), acc) == op(v, op(n.value, acc));
      }
    }
  }

  /** compaction_iter.go:452-455: the stripe is exhausted; the chain stays a Merge. */
  lemma {:induction false} EmitMerge(job: Job, from: nat, to: nat, acc: Value, out: Entry)
    requires job.Valid() && Folded(job, from, to, acc) && StandsFor(job, out, job.input[from])
    requires out.kind == InternalKeys.Kind.Merge && out.value == acc
    ensures job.Emits(out, job.input[from..], job.input[to + 1..])
  {
    var m, rest := job.input[from], job.input[to + 1..];
    forall k, s | job.Relevant(s)
      ensures job.ReadInput(job.input[from..], k, s) == ReadOne(out, job.kept, job.merge, k, s, job.ReadInput(rest, k, s))
    {
      assert job.ReadInput(job.input[from..], k, s) == job.ReadInput([m.(value := acc)] + rest, k, s);
      ReadCons(job, m.(value := acc), rest, k, s);
      KeptCounts(job, m, out, k, s);
      assert Counts(m, job.tombs, k, s) <==> Counts(m.(value := acc), job.tombs, k, s);
    }
  }

  ghost predicate SameStripe(job: Job, i: nat, j: nat)
    requires job.Valid()
  {
    && i < j < |job.input| && job.input[j].key == job.input[i].key
    && job.Stripe(job.input[j].seqNum) == job.Stripe(job.input[i].seqNum)
  }

  /** What a Merge chain becomes at the entry `n` that ends it inside the stripe. */
  ghost predicate EndsChain(job: Job, n: Entry, acc: Value, value: Value)
    requires job.Valid()
  {
    || ((n.kind == Delete || (n.IsPoint() && job.Deleted(n))) && value == acc)
    || (n.kind == Set && !job.Deleted(n) && value == job.merge(Some(n.key), n.value, acc))
  }

  /** An operand that counts, on top of the entry that ends its chain, reads as one value. */
  lemma {:induction false} ChainValue(job: Job, from: nat, j: nat, acc: Value, value: Value, k: Key, s: nat)
    requires job.Valid() && job.Relevant(s) && SameStripe(job, from, j) && EndsChain(job, job.input[j], acc, value)
    requires Counts(job.input[from], job.tombs, k, s)
    ensures Fold(job.merge, k, job.ReadInput(job.input[j..], k, s), acc) == value
  {
    var m, n := job.input[from], job.input[j];
    TailIn(job, j);
    assert Less(m, n);
    if job.Deleted(n) {
      DeletedInStripe(job, n);
      var t :| t in job.tombs && t.Contains(k) && t.seqNum > n.seqNum && job.Stripe(t.seqNum) == job.Stripe(n.seqNum);
      StripeVisible(job, m.seqNum, t.seqNum, s);
      CoveredReadsNone(job, j, t, s);
    } else {
      SameCounts(job, from, j, k, s);
    }
  }

  /** compaction_iter.go:457-498: the chain ends at a Delete, a Set or a deleted version, and becomes a Set. */
  lemma {:induction false} EmitMergeSet(job: Job, from: nat, to: nat, acc: Value, out: Entry)
    requires job.Valid() && Folded(job, from, to, acc) && StandsFor(job, out, job.input[from])
    requires SameStripe(job, from, to + 1) && out.kind == Set && EndsChain(job, job.input[to + 1], acc, out.value)
    ensures var n := job.input[to + 1];
            job.Emits(out, job.input[from..], job.SkipStripe(to + 2, n.key, job.Stripe(n.seqNum)))
  {
    hide Job.Valid, Job.Relevant, Job.ReadInput, Folded, StandsFor, EndsChain, Job.SkipStripe;
    var n := job.input[to + 1];
    forall k, s | job.Relevant(s)
      ensures job.ReadInput(job.input[from..], k, s)
           == ReadOne(out, job.kept, job.merge, k, s, job.ReadInput(job.SkipStripe(to + 2, n.key, job.Stripe(n.seqNum)), k, s))
    {
      EmitMergeSetAt(job, from, to, acc, out, k, s);
    }
  }

  lemma {:induction false} EmitMergeSetAt(job: Job, from: nat, to: nat, acc: Value, out: Entry, k: Key, s: nat)
    requires job.Valid() && job.Relevant(s) && Folded(job, from, to, acc) && StandsFor(job, out, job.input[from])
    requires SameStripe(job, from, to + 1) && out.kind == Set && EndsChain(job, job.input[to + 1], acc, out.value)
    ensures var n := job.input[to + 1];
            job.ReadInput(job.input[from..], k, s)
            == ReadOne(out, job.kept, job.merge, k, s, job.ReadInput(job.SkipStripe(to + 2, n.key, job.Stripe(n.seqNum)), k, s))
  {
    hide Job.Valid, Job.Relevant, Job.ReadInput, StandsFor, EndsChain, Job.SkipStripe, Covered, Job.Deleted;
    var m, n := job.input[from], job.input[to + 1];
    var m' := m.(value := acc);
    assert job.ReadInput(job.input[from..], k, s) == job.ReadInput([m'] + job.input[to + 1..], k, s);
    ReadCons(job, m', job.input[to + 1..], k, s);
    KeptCounts(job, m, out, k, s);
    assert Counts(m, job.tombs, k, s) <==> Counts(m', job.tombs, k, s);
    if Counts(m, job.tombs, k, s) {
      ChainValue(job, from, to + 1, acc, out.value, k, s);
    } else {
      InputLess(job, from, to + 1);
      OlderUncounted(job, m, n, k, s);
      assert job.input[to + 1..] == [n] + job.input[to + 2..];
      ReadCons(job, n, job.input[to + 2..], k, s);
      SkipOlder(job, to + 1, k, s);
    }
  }

  lemma {:induction false} InputLess(job: Job, i: nat, j: nat)
    requires job.Valid() && i < j < |job.input|
    ensures Less(job.input[i], job.input[j]) && job.input[i] in job.input && job.input[j] in job.input
  {
  }

  // --- what every step keeps -----------------------------------------------

  /** Later key, or the same key at a strictly older sequence number. */
  predicate Below(p: Entry, q: Entry) {
    p.key < q.key || (p.key == q.key && q.seqNum < p.seqNum)
  }

  ghost predicate Ordered(es: seq<Entry>) {
    forall i, j :: 0 <= i < j < |es| && es[i].IsPoint() && es[j].IsPoint() ==> Below(es[i], es[j])
  }

  ghost predicate AllBelow(es: seq<Entry>, rest: seq<Entry>) {
    forall p, q :: p in es && q in rest && p.IsPoint() && q.IsPoint() ==> Below(p, q)
  }

  /** A point entry of the output has the key of one of the input, and its sequence number or a permitted zero. */
  ghost predicate Derived(job: Job, out: Entry) {
    exists e ::
      && e in job.input && e.IsPoint() && e.key == out.key && out.seqNum <= e.seqNum
      && (out.seqNum == e.seqNum || job.allowZeroSeqNum)
  }

  ghost predicate AllDerived(job: Job, emitted: seq<Entry>, pending: seq<Entry>) {
    (forall q :: q in pending ==> q in job.input) && (forall p :: p in emitted && p.IsPoint() ==> Derived(job, p))
  }

  ghost predicate Good(job: Job, emitted: seq<Entry>, pending: seq<Entry>) {
    job.Refines(emitted, pending) && Ordered(emitted) && AllBelow(emitted, pending) && AllDerived(job, emitted, pending)
  }

  lemma {:induction false} DropGood(job: Job, emitted: seq<Entry>, before: seq<Entry>, after: seq<Entry>)
    requires Good(job, emitted, before) && job.Drops(before, after)
    requires forall q :: q in after ==> q in before
    ensures Good(job, emitted, after)
  {
    forall key, s | job.Relevant(s)
      ensures job.ReadMixed(emitted, after, key, s) == job.ReadInput(job.input, key, s)
    {
      assert job.ReadMixed(emitted, before, key, s) == job.ReadInput(job.input, key, s);
      assert job.ReadInput(before, key, s) == job.ReadInput(after, key, s);
    }
  }

  lemma {:induction false} EmitGood(job: Job, emitted: seq<Entry>, out: Entry, before: seq<Entry>, after: seq<Entry>)
    requires Good(job, emitted, before) && job.Emits(out, before, after)
    requires before != [] && forall q :: q in after ==> q in before
    requires out.IsPoint() ==> before[0].IsPoint() && out.key == before[0].key && out.seqNum <= before[0].seqNum
    requires out.IsPoint() ==> out.seqNum == before[0].seqNum || job.allowZeroSeqNum
    requires out.IsPoint() ==> AllBelow([out], after)
    ensures Good(job, emitted + [out], after)
  {
    forall key, s | job.Relevant(s)
      ensures job.ReadMixed(emitted + [out], after, key, s) == job.ReadInput(job.input, key, s)
    {
      assert job.ReadMixed(emitted, before, key, s) == job.ReadInput(job.input, key, s);
      assert job.ReadInput(before, key, s) == ReadOne(out, job.kept, job.merge, key, s, job.ReadInput(after, key, s));
      ReadAppend(emitted, [out], job.kept, job.merge, key, s, job.ReadInput(after, key, s));
    }
    assert out.IsPoint() ==> forall p :: p in emitted && p.IsPoint() ==> Below(p, before[0]);
  }

  /** Emits a stand-in for `i` that shadows the stripe it shares with `j`. */
  lemma {:induction false} EmitStripe(job: Job, emitted: seq<Entry>, i: nat, j: nat, out: Entry)
    requires job.Valid() && i < |job.input| && (i == j || SameStripe(job, i, j)) && StandsFor(job, out, job.input[i])
    requires out.IsPoint() && job.input[i].IsPoint()
    requires Good(job, emitted, job.input[i..])
    requires job.Emits(out, job.input[i..], job.SkipStripe(j + 1, job.input[j].key, job.Stripe(job.input[j].seqNum)))
    ensures Good(job, emitted + [out], job.SkipStripe(j + 1, job.input[j].key, job.Stripe(job.input[j].seqNum)))
  {
    StripeBelow(job, i, j, out);
    EmitGood(job, emitted, out, job.input[i..], job.SkipStripe(j + 1, job.input[j].key, job.Stripe(job.input[j].seqNum)));
  }

  /** Emits a Merge chain that ran to the end of its stripe, or to a tombstone marker. */
  lemma {:induction false} EmitTail(job: Job, emitted: seq<Entry>, i: nat, j: nat, acc: Value, out: Entry)
    requires job.Valid() && i < j && Folded(job, i, j - 1, acc) && StandsFor(job, out, job.input[i])
    requires out.kind == InternalKeys.Kind.Merge && out.value == acc
    requires j == |job.input| || !SameStripe(job, i, j) || (job.input[j].kind == RangeDelete && out.seqNum == job.input[i].seqNum)
    requires Good(job, emitted, job.input[i..])
    ensures Good(job, emitted + [out], job.input[j..])
  {
    EmitMerge(job, i, j - 1, acc, out);
    TailBelow(job, i, j, out);
    EmitGood(job, emitted, out, job.input[i..], job.input[j..]);
  }

  /** A range tombstone marker is passed on. */
  lemma {:induction false} EmitMarker(job: Job, emitted: seq<Entry>, marker: Entry, rest: seq<Entry>)
    requires Good(job, emitted, [marker] + rest) && marker.kind == RangeDelete
    ensures Good(job, emitted + [marker], rest)
  {
    forall k, s | job.Relevant(s)
      ensures job.ReadInput([marker] + rest, k, s) == ReadOne(marker, job.kept, job.merge, k, s, job.ReadInput(rest, k, s))
    {
      ReadCons(job, marker, rest, k, s);
    }
    EmitGood(job, emitted, marker, [marker] + rest, rest);
  }

  /** With the input used up, the output on top of the levels below reads as the input did. */
  lemma {:induction false} Finished(job: Job, emitted: seq<Entry>, key: Key, s: nat)
    requires job.Valid() && Good(job, emitted, []) && job.Relevant(s)
    ensures Read(emitted + job.lower, job.kept + job.lowerTombs, job.merge, key, s, None)
         == Read(job.input + job.lower, job.tombs + job.lowerTombs, job.merge, key, s, None)
  {
    hide Job.Valid;
    var after, before := job.kept + job.lowerTombs, job.tombs + job.lowerTombs;
    ReadAppend(emitted, job.lower, after, job.merge, key, s, None);
    ReadAppend(job.input, job.lower, before, job.merge, key, s, None);
    forall l | l in job.lower ensures Counts(l, before, key, s) <==> Counts(l, after, key, s) {
      LowerCounts(job, l, key, s);
    }
    ReadSame(job.lower, before, after, job.merge, key, s, None);
    forall e | e in emitted && e.IsPoint() ensures Counts(e, after, key, s) <==> Counts(e, job.kept, key, s) {
      NotCoveredBelow(job, e, job.kept, key, s);
    }
    ReadSame(emitted, after, job.kept, job.merge, key, s, job.ReadLower(key, s));
    forall e | e in job.input && e.IsPoint() ensures Counts(e, before, key, s) <==> Counts(e, job.tombs, key, s) {
      assert Derived(job, e);
      NotCoveredBelow(job, e, job.tombs, key, s);
    }
    ReadSame(job.input, before, job.tombs, job.merge, key, s, job.ReadLower(key, s));
    assert job.ReadMixed(emitted, [], key, s) == job.ReadInput(job.input, key, s);
  }

  /** The tombstones of the levels below cover nothing of the input or the output. */
  lemma {:induction false} NotCoveredBelow(job: Job, e: Entry, tombs: seq<Tombstone>, key: Key, s: nat)
    requires job.Valid() && Derived(job, e)
    ensures Counts(e, tombs + job.lowerTombs, key, s) <==> Counts(e, tombs, key, s)
  {
    var i :|
      && i in job.input && i.IsPoint() && i.key == e.key && e.seqNum <= i.seqNum
      && (e.seqNum == i.seqNum || job.allowZeroSeqNum);
    CoveredBoth(tombs, job.lowerTombs, key, e.seqNum, s);
    assert forall t :: t in job.lowerTombs && t.Contains(i.key) ==> t.seqNum <= e.seqNum;
  }

  lemma {:induction false} CoveredBoth(a: seq<Tombstone>, b: seq<Tombstone>, key: Key, seqNum: nat, s: nat)
    ensures Covered(a + b, key, seqNum, s) <==> Covered(a, key, seqNum, s) || Covered(b, key, seqNum, s)
  {
  }

  lemma {:induction false} LowerCounts(job: Job, l: Entry, key: Key, s: nat)
    requires job.Valid() && job.Relevant(s) && l in job.lower
    ensures Counts(l, job.tombs + job.lowerTombs, key, s) <==> Counts(l, job.kept + job.lowerTombs, key, s)
  {
    CoveredBoth(job.tombs, job.lowerTombs, key, l.seqNum, s);
    CoveredBoth(job.kept, job.lowerTombs, key, l.seqNum, s);
    if l.key == key && Covered(job.tombs, key, l.seqNum, s) {
      var t :| t in job.tombs && t.Contains(key) && t.seqNum > l.seqNum && Visible(t.seqNum, s);
      assert job.Keeps(t, key);
      var u :| u in job.kept && u.Contains(key) && job.Stripe(u.seqNum) == job.Stripe(t.seqNum) && u.seqNum >= t.seqNum;
      StripeVisible(job, t.seqNum, u.seqNum, s);
    }
  }

  /** After the stripe shared by `i` and `j` nothing is left that the stand-in for `i` could collide with. */
  lemma {:induction false} StripeBelow(job: Job, i: nat, j: nat, out: Entry)
    requires job.Valid() && i < |job.input| && (i == j || SameStripe(job, i, j)) && StandsFor(job, out, job.input[i])
    ensures var e := job.input[j];
            var rest := job.SkipStripe(j + 1, e.key, job.Stripe(e.seqNum));
            AllBelow([out], rest) && forall q :: q in rest ==> q in job.input[i..]
  {
    hide Job.KeepsCoverage, Associative, SnapshotIndex, Job.SkipStripe;
    var e := job.input[i];
    SkipLeaves(job, j, j + 1);
    forall q | q in job.SkipStripe(j + 1, e.key, job.Stripe(e.seqNum))
      ensures q in job.input[i..] && (q.IsPoint() ==> Below(out, q))
    {
      var x :| j + 1 <= x < |job.input| && job.input[x] == q;
      assert job.input[i..][x - i] == q && Less(e, q);
      StripeMonotone(job, e.seqNum, if q.seqNum >= e.seqNum then q.seqNum else e.seqNum);
    }
  }

  /** The same after a Merge chain that ran to the end of its stripe, or to a tombstone marker. */
  lemma {:induction false} TailBelow(job: Job, i: nat, j: nat, out: Entry)
    requires job.Valid() && i < j <= |job.input| && StandsFor(job, out, job.input[i])
    requires job.input[i].kind == InternalKeys.Kind.Merge
    requires j == |job.input| || !SameStripe(job, i, j) || (job.input[j].kind == RangeDelete && out.seqNum == job.input[i].seqNum)
    ensures AllBelow([out], job.input[j..])
    ensures forall q :: q in job.input[j..] ==> q in job.input[i..]
  {
    var e := job.input[i];
    forall q | q in job.input[j..] && q.IsPoint()
      ensures Below(out, q)
    {
      var f := job.input[j];
      TailIn(job, i);
      TailIn(job, j);
      assert Less(e, q) && Less(e, f);
      assert q == f || Less(f, q);
      if q.key == e.key {
        StripeMonotone(job, f.seqNum, e.seqNum);
        StripeMonotone(job, q.seqNum, f.seqNum);
      }
    }
  }

  // --- how much is emitted -------------------------------------------------------

  /** Within a stripe only a Merge is followed by another version of its key, and only across a range tombstone. */
  ghost predicate OneEach(job: Job, p: Entry, q: Entry)
    requires Ascending(job.snapshots)
  {
    p.IsPoint() && q.IsPoint() && p.key == q.key && job.Stripe(p.seqNum) == job.Stripe(q.seqNum) ==>
      p.kind == InternalKeys.Kind.Merge && exists m :: m in job.input && m.kind == RangeDelete && Less(p, m) && Less(m, q)
  }

  ghost predicate Collapsed(job: Job, es: seq<Entry>)
    requires Ascending(job.snapshots)
  {
    forall i, j :: 0 <= i < j < |es| ==> OneEach(job, es[i], es[j])
  }

  ghost predicate CollapsedOn(job: Job, es: seq<Entry>, rest: seq<Entry>)
    requires Ascending(job.snapshots)
  {
    forall p, q :: p in es && q in rest ==> OneEach(job, p, q)
  }

  /** Nothing that can be elided, and no sequence number that can be zeroed: a Delete is one of the input that must
      stay. Where sequence numbers can be zeroed another entry keeps one only if it is a Merge that ends at a range
      tombstone. A sequence number that was not zeroed is that of a version in the input. */
  ghost predicate Trimmed(job: Job, out: Entry)
    requires Ascending(job.snapshots)
  {
    && (out.kind == Delete ==> out in job.input && (job.Stripe(out.seqNum) == 0 ==> !job.elideTombstone(out.key)))
    && (out.IsPoint() && job.allowZeroSeqNum && job.Stripe(out.seqNum) == 0 && out.seqNum != 0 ==>
          out.kind == Delete || (out.kind == InternalKeys.Kind.Merge && CutShort(job, out)))
    && (out.IsPoint() ==> Numbered(job, out) || (out.seqNum == 0 && job.allowZeroSeqNum))
  }

  /** In the input a range tombstone of the same key and stripe follows. */
  ghost predicate CutShort(job: Job, out: Entry)
    requires Ascending(job.snapshots)
  {
    exists m :: m in job.input && m.kind == RangeDelete && m.key == out.key && Less(out, m)
                && job.Stripe(m.seqNum) == job.Stripe(out.seqNum)
  }

  ghost predicate Numbered(job: Job, out: Entry) {
    exists e :: e in job.input && e.IsPoint() && e.key == out.key && e.seqNum == out.seqNum
  }

  lemma {:induction false} PointTrimmed(job: Job, i: nat, out: Entry)
    requires job.Valid() && i < |job.input| && job.input[i].IsPoint() && StandsFor(job, out, job.input[i])
    requires out.kind == Delete ==>
      out == job.input[i] && (job.Stripe(out.seqNum) == 0 ==> !job.elideTombstone(out.key))
    requires out.kind != Delete && job.allowZeroSeqNum && job.Stripe(job.input[i].seqNum) == 0 ==> out.seqNum == 0
    ensures Trimmed(job, out)
  {
    hide SnapshotIndex, Job.Valid;
    StandsInStripe(job, out, job.input[i]);
    assert job.input[i] in job.input;
  }

  lemma {:induction false} MergeTrimmed(job: Job, i: nat, j: nat, out: Entry)
    requires job.Valid() && i < |job.input| && StandsFor(job, out, job.input[i])
    requires job.input[i].kind == out.kind == InternalKeys.Kind.Merge
    requires job.allowZeroSeqNum && job.Stripe(job.input[i].seqNum) == 0 && out.seqNum != 0 ==>
      SameStripe(job, i, j) && job.input[j].kind == RangeDelete
    ensures Trimmed(job, out)
  {
    hide SnapshotIndex, Job.Valid;
    StandsInStripe(job, out, job.input[i]);
    assert job.input[i] in job.input;
    if job.allowZeroSeqNum && job.Stripe(out.seqNum) == 0 && out.seqNum != 0 {
      InputLess(job, i, j);
      assert job.input[j] in job.input && Less(out, job.input[j]);
    }
  }

  function Markers(es: seq<Entry>): seq<Entry> {
    if es == [] then [] else (if es[0].kind == RangeDelete then [es[0]] else []) + Markers(es[1..])
  }

  lemma {:induction false} MarkersAppend(a: seq<Entry>, b: seq<Entry>)
    ensures Markers(a + b) == Markers(a) + Markers(b)
  {
    if a == [] {
      assert a + b == b;
    } else {
      var first := if a[0].kind == RangeDelete then [a[0]] else [];
      assert (a + b)[0] == a[0] && (a + b)[1..] == a[1..] + b;
      MarkersAppend(a[1..], b);
      assert Markers(a) == first + Markers(a[1..]) && Markers(a + b) == first + Markers(a[1..] + b);
    }
  }

  /** Nothing is emitted that need not be, and every range tombstone is passed on. */
  ghost predicate Tidy(job: Job, emitted: seq<Entry>, pending: seq<Entry>)
    requires Ascending(job.snapshots)
  {
    && Collapsed(job, emitted) && CollapsedOn(job, emitted, pending)
    && (forall p :: p in emitted ==> Trimmed(job, p))
    && Markers(emitted) + Markers(pending) == Markers(job.input)
  }

  lemma {:induction false} MarkersSkip(job: Job, i: nat, key: Key, stripe: nat)
    requires Ascending(job.snapshots) && i <= |job.input|
    ensures Markers(job.SkipStripe(i, key, stripe)) == Markers(job.input[i..])
    decreases |job.input| - i
  {
    if i < |job.input| && job.input[i].key == key && job.Stripe(job.input[i].seqNum) == stripe {
      MarkersSkip(job, i + 1, key, stripe);
      assert job.input[i..] == [job.input[i]] + job.input[i + 1..];
      MarkersAppend([job.input[i]], job.SkipStripe(i + 1, key, stripe));
    }
  }

  lemma {:induction false} NoMarkers(job: Job, i: nat, j: nat)
    requires i <= j <= |job.input| && forall k :: i <= k < j ==> job.input[k].IsPoint()
    ensures Markers(job.input[i..]) == Markers(job.input[j..])
    decreases j - i
  {
    if i < j { NoMarkers(job, i + 1, j); }
  }

  lemma {:induction false} TidyDrop(job: Job, emitted: seq<Entry>, i: nat)
    requires job.Valid() && i < |job.input| && job.input[i].IsPoint() && Tidy(job, emitted, job.input[i..])
    ensures Tidy(job, emitted, job.SkipStripe(i + 1, job.input[i].key, job.Stripe(job.input[i].seqNum)))
  {
    hide Job.Valid, OneEach, Job.SkipStripe;
    StripeIn(job, i);
    NoMarkers(job, i, i + 1);
    MarkersSkip(job, i + 1, job.input[i].key, job.Stripe(job.input[i].seqNum));
  }

  /** A stand-in is in the stripe of the entry and not before it. */
  lemma {:induction false} StandsInStripe(job: Job, out: Entry, e: Entry)
    requires job.Valid() && StandsFor(job, out, e)
    ensures job.Stripe(out.seqNum) == job.Stripe(e.seqNum)
  {
    StripeMonotone(job, out.seqNum, e.seqNum);
  }

  lemma {:induction false} TidyAdd(job: Job, emitted: seq<Entry>, out: Entry, before: seq<Entry>, after: seq<Entry>)
    requires Ascending(job.snapshots) && Tidy(job, emitted, before) && before != [] && forall q :: q in after ==> q in before
    requires CollapsedOn(job, [out], after) && Trimmed(job, out)
    requires out.IsPoint() ==> before[0].IsPoint() && out.key == before[0].key && out.Trailer() <= before[0].Trailer()
    requires out.IsPoint() ==> job.Stripe(out.seqNum) == job.Stripe(before[0].seqNum)
    requires Markers([out]) + Markers(after) == Markers(before)
    ensures Tidy(job, emitted + [out], after)
  {
    hide SnapshotIndex;
    var es := emitted + [out];
    forall p | p in emitted ensures OneEach(job, p, out) {
      assert before[0] in before && OneEach(job, p, before[0]);
    }
    forall i, j | 0 <= i < j < |es| ensures OneEach(job, es[i], es[j]) {
      assert es[i] in emitted;
      if j < |emitted| { assert OneEach(job, emitted[i], emitted[j]); }
    }
    forall p, q | p in es && q in after ensures OneEach(job, p, q) {
      if p in emitted { assert q in before; } else { assert p in [out]; }
    }
    MarkersAppend(emitted, [out]);
  }

  lemma {:induction false} TidyStripe(job: Job, emitted: seq<Entry>, i: nat, j: nat, out: Entry)
    requires job.Valid() && i < |job.input| && (i == j || SameStripe(job, i, j)) && StandsFor(job, out, job.input[i])
    requires out.IsPoint() && out.Trailer() <= job.input[i].Trailer() && Trimmed(job, out)
    requires forall k :: i <= k <= j ==> job.input[k].IsPoint()
    requires Tidy(job, emitted, job.input[i..])
    ensures Tidy(job, emitted + [out], job.SkipStripe(j + 1, job.input[j].key, job.Stripe(job.input[j].seqNum)))
  {
    hide Job.Valid, SnapshotIndex, Job.SkipStripe, Tidy, Less, Trimmed, CollapsedOn, Markers;
    var e := job.input[j];
    var rest := job.SkipStripe(j + 1, e.key, job.Stripe(e.seqNum));
    StandsInStripe(job, out, job.input[i]);
    StripeOnce(job, i, j, out);
    NoMarkers(job, i, j + 1);
    MarkersSkip(job, j + 1, e.key, job.Stripe(e.seqNum));
    OneMarker(out, rest);
    TidyAdd(job, emitted, out, job.input[i..], rest);
  }

  lemma {:induction false} OneMarker(out: Entry, rest: seq<Entry>)
    ensures Markers([out]) + Markers(rest) == if out.IsPoint() then Markers(rest) else [out] + Markers(rest)
  {
    assert [out][1..] == [];
  }

  lemma {:induction false} StripeOnce(job: Job, i: nat, j: nat, out: Entry)
    requires job.Valid() && i < |job.input| && (i == j || SameStripe(job, i, j)) && StandsFor(job, out, job.input[i])
    ensures var rest := job.SkipStripe(j + 1, job.input[j].key, job.Stripe(job.input[j].seqNum));
      CollapsedOn(job, [out], rest) && forall q :: q in rest ==> q in job.input[i..]
  {
    hide Job.Valid, SnapshotIndex, Job.SkipStripe, Less;
    var e := job.input[j];
    StandsInStripe(job, out, job.input[i]);
    SkipLeaves(job, j, j + 1);
    forall q | q in job.SkipStripe(j + 1, e.key, job.Stripe(e.seqNum)) ensures q in job.input[i..] && OneEach(job, out, q) {
      var x :| 0 <= x < |job.input[j + 1..]| && job.input[j + 1..][x] == q;
      assert job.input[i..][j + 1 + x - i] == q;
    }
  }

  lemma {:induction false} TidyTail(job: Job, emitted: seq<Entry>, i: nat, j: nat, out: Entry)
    requires job.Valid() && i < j <= |job.input| && StandsFor(job, out, job.input[i])
    requires job.input[i].kind == out.kind == InternalKeys.Kind.Merge
    requires j == |job.input| || !SameStripe(job, i, j) || (job.input[j].kind == RangeDelete && out.seqNum == job.input[i].seqNum)
    requires job.allowZeroSeqNum && job.Stripe(job.input[i].seqNum) == 0 && out.seqNum != 0 ==>
      SameStripe(job, i, j) && job.input[j].kind == RangeDelete
    requires forall k :: i <= k < j ==> job.input[k].IsPoint()
    requires Tidy(job, emitted, job.input[i..])
    ensures Tidy(job, emitted + [out], job.input[j..])
  {
    hide Job.Valid, SnapshotIndex, Tidy, Markers, Trimmed;
    var e := job.input[i];
    StandsInStripe(job, out, e);
    MergeTrimmed(job, i, j, out);
    forall q | q in job.input[j..] ensures q in job.input[i..] && OneEach(job, out, q) {
      var x :| j <= x < |job.input| && job.input[x] == q;
      assert job.input[i..][x - i] == q;
      TailOnce(job, i, j, x, out);
    }
    NoMarkers(job, i, j);
    OneMarker(out, job.input[j..]);
    TidyAdd(job, emitted, out, job.input[i..], job.input[j..]);
  }

  lemma {:induction false} TailOnce(job: Job, i: nat, j: nat, x: nat, out: Entry)
    requires job.Valid() && i < j <= x < |job.input| && StandsFor(job, out, job.input[i])
    requires job.input[i].kind == out.kind == InternalKeys.Kind.Merge
    requires !SameStripe(job, i, j) || (job.input[j].kind == RangeDelete && out.seqNum == job.input[i].seqNum)
    ensures OneEach(job, out, job.input[x])
  {
    hide Job.Valid, SnapshotIndex;
    var e, f, q := job.input[i], job.input[j], job.input[x];
    StandsInStripe(job, out, e);
    InputLess(job, i, j);
    if j < x { InputLess(job, j, x); }
    if q.key == e.key && q.IsPoint() {
      StripeMonotone(job, f.seqNum, e.seqNum);
      StripeMonotone(job, q.seqNum, f.seqNum);
      if SameStripe(job, i, j) { assert Less(out, f) && Less(f, q); }
    }
  }

  /** Emits a Set or a Delete with the stripe that it shadows. */
  lemma {:induction false} EmitShadow(job: Job, emitted: seq<Entry>, i: nat, out: Entry)
    requires job.Valid() && i < |job.input| && !job.Deleted(job.input[i]) && StandsFor(job, out, job.input[i])
    requires out.kind == job.input[i].kind && (out.kind == Delete || out.kind == Set) && out.value == job.input[i].value
    requires Trimmed(job, out) && Good(job, emitted, job.input[i..]) && Tidy(job, emitted, job.input[i..])
    ensures out.key == job.input[i].key
    ensures Good(job, emitted + [out], job.SkipStripe(i + 1, job.input[i].key, job.Stripe(job.input[i].seqNum)))
    ensures Tidy(job, emitted + [out], job.SkipStripe(i + 1, job.input[i].key, job.Stripe(job.input[i].seqNum)))
  {
    hide Good, Tidy, Trimmed, Job.Valid, Job.Emits, Job.Deleted, Job.SkipStripe, SnapshotIndex;
    EmitPoint(job, i, out);
    EmitStripe(job, emitted, i, i, out);
    TidyStripe(job, emitted, i, i, out);
  }

  lemma {:induction false} ZeroStands(job: Job, out: Entry, e: Entry)
    requires job.Valid() && out.key == e.key
    requires out.seqNum == e.seqNum || (out.seqNum == 0 && job.allowZeroSeqNum && job.Stripe(e.seqNum) == 0)
    ensures StandsFor(job, out, e)
  {
  }

  /** Emits a Merge chain that stays one. */
  lemma {:induction false} EmitChainTail(job: Job, emitted: seq<Entry>, i: nat, j: nat, acc: Value, out: Entry)
    requires job.Valid() && i < j <= |job.input| && Folded(job, i, j - 1, acc) && StandsFor(job, out, job.input[i])
    requires job.input[i].kind == out.kind == InternalKeys.Kind.Merge && out.value == acc
    requires j == |job.input| || !SameStripe(job, i, j) || (job.input[j].kind == RangeDelete && out.seqNum == job.input[i].seqNum)
    requires job.allowZeroSeqNum && job.Stripe(job.input[i].seqNum) == 0 && out.seqNum != 0 ==>
      SameStripe(job, i, j) && job.input[j].kind == RangeDelete
    requires forall k :: i <= k < j ==> job.input[k].IsPoint()
    requires Good(job, emitted, job.input[i..]) && Tidy(job, emitted, job.input[i..])
    ensures Good(job, emitted + [out], job.input[j..]) && Tidy(job, emitted + [out], job.input[j..])
  {
    hide Good, Tidy, Folded, StandsFor, Job.Valid, SnapshotIndex;
    EmitTail(job, emitted, i, j, acc, out);
    TidyTail(job, emitted, i, j, out);
  }

  /** Emits a Merge chain that became a Set. */
  lemma {:induction false} EmitChainSet(job: Job, emitted: seq<Entry>, i: nat, j: nat, acc: Value, out: Entry)
    requires job.Valid() && i < j && Folded(job, i, j - 1, acc) && SameStripe(job, i, j)
    requires StandsFor(job, out, job.input[i]) && out.kind == Set && EndsChain(job, job.input[j], acc, out.value)
    requires job.input[i].kind == InternalKeys.Kind.Merge && forall k :: i <= k <= j ==> job.input[k].IsPoint()
    requires job.allowZeroSeqNum && job.Stripe(job.input[i].seqNum) == 0 ==> out.seqNum == 0
    requires Good(job, emitted, job.input[i..]) && Tidy(job, emitted, job.input[i..])
    ensures Good(job, emitted + [out], job.SkipStripe(j + 1, job.input[j].key, job.Stripe(job.input[j].seqNum)))
    ensures Tidy(job, emitted + [out], job.SkipStripe(j + 1, job.input[j].key, job.Stripe(job.input[j].seqNum)))
  {
    hide Good, Tidy, Folded, EndsChain, Markers, Less, Job.Valid, Job.Emits, Job.Deleted, Job.SkipStripe, SnapshotIndex;
    EmitMergeSet(job, i, j - 1, acc, out);
    EmitStripe(job, emitted, i, j, out);
    PointTrimmed(job, i, out);
    TidyStripe(job, emitted, i, j, out);
  }

  lemma {:induction false} TidyMarker(job: Job, emitted: seq<Entry>, marker: Entry, rest: seq<Entry>)
    requires Ascending(job.snapshots) && Tidy(job, emitted, [marker] + rest) && marker.kind == RangeDelete
    ensures Tidy(job, emitted + [marker], rest)
  {
    hide SnapshotIndex, Tidy, Markers;
    OneMarker(marker, rest);
    MarkersAppend([marker], rest);
    TidyAdd(job, emitted, marker, [marker] + rest, rest);
  }

  // --- what the fragmenter knows -------------------------------------------------

  lemma {:induction false} TidyMarkers(job: Job, emitted: seq<Entry>, pending: seq<Entry>)
    requires Ascending(job.snapshots) && Tidy(job, emitted, pending)
    ensures Markers(emitted) + Markers(pending) == Markers(job.input)
  {
  }

  lemma {:induction false} MarkersAre(es: seq<Entry>, m: Entry)
    ensures m in Markers(es) <==> m in es && m.kind == RangeDelete
  {
    if es != [] {
      assert es == [es[0]] + es[1..];
      MarkersAre(es[1..], m);
    }
  }

  /** A tombstone newer than a version of a key that it covers has its marker before that version. */
  lemma {:induction false} MarkedBefore(job: Job, emitted: seq<Entry>, from: nat, ip: nat, seqNum: nat)
    requires job.Valid() && from <= ip < |job.input| && (forall k :: from <= k < ip ==> job.input[k].IsPoint())
    requires Markers(emitted) + Markers(job.input[from..]) == Markers(job.input)
    requires seqNum > job.input[ip].seqNum && job.MarksAt(job.input, job.input[ip].key, seqNum)
    ensures job.MarksAt(emitted, job.input[ip].key, seqNum)
  {
    hide Job.Valid;
    var e := job.input[ip];
    var m :| m in job.input && m.kind == RangeDelete && m.seqNum == seqNum && job.OfMarker(m).Contains(e.key);
    MarkersAre(job.input, m);
    MarkersAre(emitted, m);
    MarkersAre(job.input[from..], m);
    if m in job.input[from..] {
      var x :| from <= x < |job.input| && job.input[x] == m;
      assert x >= ip;
      if x > ip { InputLess(job, ip, x); }
    }
  }

  /** compaction_iter.go:273, compaction.go:2384: the markers returned so far, which are all that the
      fragmenter has been given, decide whether an entry is deleted as all the tombstones of the input do. */
  lemma {:induction false} KnowsEnough(job: Job, emitted: seq<Entry>, added: seq<Tombstone>, from: nat, ip: nat)
    requires job.Valid() && from <= ip < |job.input| && (forall k :: from <= k < ip ==> job.input[k].IsPoint())
    requires Markers(emitted) + Markers(job.input[from..]) == Markers(job.input) && job.TellsOf(emitted, added)
    ensures job.DeletedBy(added, job.input[ip]) <==> job.Deleted(job.input[ip])
  {
    hide SnapshotIndex, Job.KeepsCoverage, Markers, Job.MarksAt, CoversAt;
    var e := job.input[ip];
    forall seqNum | seqNum > e.seqNum
      ensures CoversAt(added, e.key, seqNum) <==> CoversAt(job.tombs, e.key, seqNum)
    {
      if job.MarksAt(job.input, e.key, seqNum) { MarkedBefore(job, emitted, from, ip, seqNum); }
      MarksMore(job, emitted, job.input[from..], e.key, seqNum);
    }
    forall s ensures Covered(added, e.key, e.seqNum, s) <==> Covered(job.tombs, e.key, e.seqNum, s) {
      CoveredLike(added, job.tombs, e.key, e.seqNum, s);
      CoveredLike(job.tombs, added, e.key, e.seqNum, s);
    }
  }

  lemma {:induction false} MarksMore(job: Job, emitted: seq<Entry>, rest: seq<Entry>, key: Key, seqNum: nat)
    requires Markers(emitted) + Markers(rest) == Markers(job.input)
    ensures job.MarksAt(emitted, key, seqNum) ==> job.MarksAt(job.input, key, seqNum)
  {
    if job.MarksAt(emitted, key, seqNum) {
      var m :| m in emitted && m.kind == RangeDelete && m.seqNum == seqNum && job.OfMarker(m).Contains(key);
      MarkersAre(emitted, m);
      MarkersAre(job.input, m);
    }
  }

  /** A returned marker is given to the fragmenter before anything else is looked at. */
  lemma {:induction false} AddMarker(job: Job, emitted: seq<Entry>, added: seq<Tombstone>, out: Entry)
    requires job.TellsOf(emitted, added)
    ensures job.TellsOf(emitted + [out], if out.kind == RangeDelete then added + [job.OfMarker(out)] else added)
  {
    var added' := if out.kind == RangeDelete then added + [job.OfMarker(out)] else added;
    forall key, seqNum ensures CoversAt(added', key, seqNum) <==> job.MarksAt(emitted + [out], key, seqNum) {
      assert CoversAt(added, key, seqNum) <==> job.MarksAt(emitted, key, seqNum);
    }
  }

  /** Passes a range tombstone marker on, to the output and to the fragmenter. */
  lemma {:induction false} PassMarker(
      job: Job, emitted: seq<Entry>, added: seq<Tombstone>, marker: Entry, rest: seq<Entry>)
    requires Ascending(job.snapshots) && marker.kind == RangeDelete && job.TellsOf(emitted, added)
    requires Good(job, emitted, [marker] + rest) && Tidy(job, emitted, [marker] + rest)
    ensures Good(job, emitted + [marker], rest) && Tidy(job, emitted + [marker], rest)
    ensures job.TellsOf(emitted + [marker], added + [job.OfMarker(marker)])
  {
    hide Good, Tidy, Job.TellsOf, SnapshotIndex;
    EmitMarker(job, emitted, marker, rest);
    TidyMarker(job, emitted, marker, rest);
    AddMarker(job, emitted, added, marker);
  }

  datatype StripeChange = NewStripe | SameStripeSkippable | SameStripeNonSkippable

  // --- the iterator --------------------------------------------------------

  /** Where the wrapped iterator stands at the top of Next. */
  datatype IterPos = IterPosCur | IterPosNext

  class Iterator {
    const job: Job
    var ip: nat               // the wrapped iterator; exhausted at |job.input|
    var key: Entry            // the key and value returned last
    var skip: bool
    var pos: IterPos
    var curSnapshotIdx: nat
    var added: seq<Tombstone> // what the caller has given the fragmenter
    ghost var emitted: seq<Entry>

    /** The input still to be processed when standing at the entry `ip`. */
    ghost function AtEntry(): seq<Entry>
      requires Ascending(job.snapshots) && ip <= |job.input|
      reads this
    {
      if skip && ip < |job.input| then [job.input[ip]] + job.SkipStripe(ip + 1, job.input[ip].key, job.Stripe(job.input[ip].seqNum))
      else job.input[ip..]
    }

    /** The input still to be processed at the top of Next. */
    ghost function Pending(): seq<Entry>
      requires Ascending(job.snapshots) && ip <= |job.input|
      reads this
    {
      if pos == IterPosNext then job.input[ip..]
      else if ip == |job.input| then []
      else if skip then job.SkipStripe(ip + 1, job.input[ip].key, job.Stripe(job.input[ip].seqNum))
      else job.input[ip + 1..]
    }

    ghost predicate Positioned()
      requires Ascending(job.snapshots)
      reads this
    {
      && ip <= |job.input|
      && (ip < |job.input| ==> curSnapshotIdx == job.Stripe(job.input[ip].seqNum))
    }

    ghost predicate Valid()
      reads this
    {
      && job.Valid()
      && Positioned()
      && (skip ==> pos == IterPosCur && ip < |job.input|)
      && (pos == IterPosCur && ip < |job.input| ==> key.key == job.input[ip].key)
      && Good(job, emitted, Pending()) && Tidy(job, emitted, Pending()) && job.TellsOf(emitted, added)
    }

    /** newCompactionIter followed by the positioning part of First. */
    constructor (job: Job)
      requires job.Valid()
      ensures Valid() && this.job == job && emitted == []
    {
      this.job := job;
      ip := 0;
      key := Entry(0.0, 0, Set, []);
      skip := false;
      pos := IterPosNext;
      curSnapshotIdx := if |job.input| > 0 then job.Stripe(job.input[0].seqNum) else 0;
      added := [];
      emitted := [];
      new;
      assert job.input[0..] == job.input;
    }

    method NextInStripe() returns (change: StripeChange)
      requires Ascending(job.snapshots) && Positioned()
      requires ip < |job.input| ==> key.key == job.input[ip].key
      modifies this`ip, this`curSnapshotIdx
      ensures ip == if old(ip) < |job.input| then old(ip) + 1 else old(ip)
      ensures ip < |job.input| ==> curSnapshotIdx == job.Stripe(job.input[ip].seqNum)
      ensures change == NewStripe <==>
        ip == |job.input| || job.input[ip].key != key.key || curSnapshotIdx != old(curSnapshotIdx)
      ensures change == SameStripeNonSkippable ==> job.input[ip].kind == RangeDelete
      ensures change == SameStripeSkippable ==> job.input[ip].kind != RangeDelete
    {
      if ip < |job.input| { ip := ip + 1; }
      if ip == |job.input| { return NewStripe; }
      var e := job.input[ip];
      var origSnapshotIdx := curSnapshotIdx;
      curSnapshotIdx := job.Stripe(e.seqNum);
      if key.key != e.key || curSnapshotIdx != origSnapshotIdx { return NewStripe; }
      return if e.kind == RangeDelete then SameStripeNonSkippable else SameStripeSkippable;
    }

    method SkipInStripe()
      requires Ascending(job.snapshots) && Positioned()
      requires ip < |job.input| && key.key == job.input[ip].key
      modifies this`ip, this`curSnapshotIdx, this`skip
      ensures Positioned() && ip > old(ip)
      ensures skip ==> ip < |job.input| && job.input[ip].kind == RangeDelete && key.key == job.input[ip].key
      ensures AtEntry() == job.SkipStripe(old(ip) + 1, key.key, old(curSnapshotIdx))
    {
      skip := true;
      var change := SameStripeSkippable;
      while change == SameStripeSkippable
        invariant Positioned() && ip >= old(ip) && skip
        invariant change == SameStripeSkippable ==>
          && ip < |job.input| && key.key == job.input[ip].key && curSnapshotIdx == old(curSnapshotIdx)
          && job.SkipStripe(ip + 1, key.key, curSnapshotIdx)
             == job.SkipStripe(old(ip) + 1, key.key, old(curSnapshotIdx))
        invariant change == NewStripe ==>
          ip == |job.input| || job.input[ip].key != key.key || curSnapshotIdx != old(curSnapshotIdx)
        invariant change == SameStripeNonSkippable ==>
          && ip < |job.input| && job.input[ip].kind == RangeDelete
          && job.input[ip].key == key.key && curSnapshotIdx == old(curSnapshotIdx)
        invariant change != SameStripeSkippable ==>
          && ip > old(ip)
          && job.SkipStripe(ip, key.key, old(curSnapshotIdx))
             == job.SkipStripe(old(ip) + 1, key.key, old(curSnapshotIdx))
        decreases |job.input| - ip, change == SameStripeSkippable
      {
        change := NextInStripe();
      }
      if change == NewStripe { skip := false; }
    }

    /** maybeZeroSeqnum on the key about to be returned. */
    function MaybeZeroSeqNum(e: Entry, snapshotIdx: nat): Entry {
      if job.allowZeroSeqNum && snapshotIdx == 0 then e.(seqNum := 0) else e
    }

    /** Folds the Merge chain at `ip`; the resulting key is left in `key`. */
    method MergeNext() returns (change: StripeChange, ghost acc: Value)
      requires job.Valid() && Positioned() && !skip && pos == IterPosCur
      requires ip < |job.input| && job.input[ip].kind == InternalKeys.Kind.Merge && !job.Deleted(job.input[ip])
      requires Markers(emitted) + Markers(job.input[ip..]) == Markers(job.input) && job.TellsOf(emitted, added)
      modifies this`ip, this`curSnapshotIdx, this`skip, this`pos, this`key
      ensures Positioned() && ip > old(ip) && Folded(job, old(ip), ip - 1, acc)
      ensures key.key == job.input[old(ip)].key && key.seqNum == job.input[old(ip)].seqNum
      ensures change == SameStripeSkippable ==>
        && skip && pos == IterPosCur && SameStripe(job, old(ip), ip)
        && key.kind == Set && EndsChain(job, job.input[ip], acc, key.value)
      ensures change != SameStripeSkippable ==>
        && !skip && pos == IterPosNext && key.kind == InternalKeys.Kind.Merge && key.value == acc
      ensures forall k :: old(ip) <= k < ip ==> job.input[k].IsPoint()
      ensures change == SameStripeSkippable ==> job.input[ip].IsPoint()
      ensures change == NewStripe ==> ip == |job.input| || !SameStripe(job, old(ip), ip)
      ensures change == SameStripeNonSkippable ==> SameStripe(job, old(ip), ip) && job.input[ip].kind == RangeDelete
    {
      hide Good, Tidy, Folded, Less, Job.Valid, Job.Deleted, Job.DeletedBy, Job.TellsOf, Job.SkipStripe, Markers,
           SnapshotIndex;
      ghost var from := ip;
      key := job.input[ip];
      acc := key.value;
      FoldStart(job, ip);
      while true
        invariant from <= ip < |job.input| && Positioned() && !skip && pos == IterPosCur
        invariant key == job.input[from].(value := acc)
        invariant Folded(job, from, ip, acc) && forall k :: from <= k <= ip ==> job.input[k].IsPoint()
        invariant job.input[ip].key == key.key && curSnapshotIdx == job.Stripe(job.input[from].seqNum)
        decreases |job.input| - ip
      {
        change := NextInStripe();
        if change != SameStripeSkippable {
          pos := IterPosNext;
          return;
        }
        var ended;
        ended, acc := Absorb(from, acc);
        if ended { return; }
      }
    }

    /** The next version of the stripe becomes part of the chain, or ends it. */
    method Absorb(ghost from: nat, ghost acc: Value) returns (ended: bool, ghost more: Value)
      requires job.Valid() && SameStripe(job, from, ip) && Folded(job, from, ip - 1, acc) && !skip
      requires key == job.input[from].(value := acc) && key.kind == InternalKeys.Kind.Merge
      requires forall k :: from <= k <= ip ==> job.input[k].IsPoint()
      requires Markers(emitted) + Markers(job.input[from..]) == Markers(job.input) && job.TellsOf(emitted, added)
      modifies this`skip, this`key
      ensures key.key == old(key).key && key.seqNum == old(key).seqNum
      ensures ended ==> skip && more == acc && key.kind == Set && EndsChain(job, job.input[ip], acc, key.value)
      ensures !ended ==> !skip && key == job.input[from].(value := more) && Folded(job, from, ip, more)
    {
      hide Good, Tidy, Folded, Less, Job.Valid, Job.Deleted, Job.DeletedBy, Job.TellsOf, Job.SkipStripe, Markers,
           SnapshotIndex;
      var n := job.input[ip];
      more := acc;
      KnowsEnough(job, emitted, added, from, ip);
      match n.kind {
        case Delete =>
        case Set =>
          if !job.DeletedBy(added, n) {
            key := key.(value := job.merge(Some(key.key), n.value, key.value));
          }
        case Merge =>
          if !job.DeletedBy(added, n) {
            FoldMerge(job, from, ip - 1, acc);
            key := key.(value := job.merge(Some(key.key), n.value, key.value));
            return false, key.value;
          }
      }
      key := key.(kind := Set);
      skip := true;
      ended := true;
    }
  
    /** Standing at the entry `ip`, with nothing of it processed yet. */
    ghost predicate Ready()
      reads this
    {
      && job.Valid() && Positioned() && pos == IterPosCur
      && (skip ==> ip < |job.input| && job.input[ip].kind == RangeDelete)
      && Good(job, emitted, AtEntry()) && Tidy(job, emitted, AtEntry()) && job.TellsOf(emitted, added)
    }

    /** saveKey and skipInStripe for an entry that is dropped together with its stripe. */
    method DropStripe()
      requires Ready() && !skip && ip < |job.input| && job.input[ip].IsPoint()
      requires job.Drops(job.input[ip..], job.SkipStripe(ip + 1, job.input[ip].key, job.Stripe(job.input[ip].seqNum)))
      modifies this
      ensures Ready() && ip > old(ip) && emitted == old(emitted)
    {
      hide Good, Tidy, Job.Valid, Job.Drops, Job.SkipStripe, SnapshotIndex;
      ghost var before := AtEntry();
      StripeIn(job, ip);
      TidyDrop(job, emitted, ip);
      key := job.input[ip];
      SkipInStripe();
      DropGood(job, emitted, before, AtEntry());
    }

    /** Returns a Set or a Delete; the rest of its stripe will be skipped. */
    method ReturnPoint(out: Entry)
      requires Ready() && !skip && ip < |job.input|
      requires var e := job.input[ip];
        && !job.Deleted(e) && StandsFor(job, out, e)
        && out.kind == e.kind && (out.kind == Delete || out.kind == Set) && out.value == e.value && Trimmed(job, out)
      modifies this
      ensures Valid() && ip == old(ip) && pos == IterPosCur && key == out && emitted == old(emitted) + [out]
    {
      hide Good, Tidy, Trimmed, StandsFor, Job.Valid, Job.Deleted, Job.DeletedBy, Job.TellsOf, Job.SkipStripe,
           SnapshotIndex;
      key := out;
      skip := true;
      EmitShadow(job, emitted, ip, out);
      AddMarker(job, emitted, added, out);
      emitted := emitted + [out];
    }

    /** Folds and returns a Merge chain. */
    method ReturnMerge()
      requires Ready() && !skip && ip < |job.input|
      requires job.input[ip].kind == InternalKeys.Kind.Merge && !job.Deleted(job.input[ip])
      modifies this
      ensures Valid() && ip > old(ip) && emitted == old(emitted) + [key]
    {
      hide Good, Tidy, Folded, EndsChain, StandsFor, Markers, Less, Job.Valid, Job.Deleted, Job.DeletedBy, Job.TellsOf,
           Job.SkipStripe, SnapshotIndex;
      ghost var from := ip;
      var origSnapshotIdx := curSnapshotIdx;
      TidyMarkers(job, emitted, job.input[ip..]);
      var change, acc := MergeNext();
      if change != SameStripeNonSkippable {
        key := MaybeZeroSeqNum(key, origSnapshotIdx);
      }
      ZeroStands(job, key, job.input[from]);
      if change == SameStripeSkippable {
        EmitChainSet(job, emitted, from, ip, acc, key);
      } else {
        EmitChainTail(job, emitted, from, ip, acc, key);
      }
      AddMarker(job, emitted, added, key);
      emitted := emitted + [key];
    }

    /** How far along the run is; every returned entry adds to it. */
    ghost function Progress(): int
      reads this
    {
      2 * ip + (if pos == IterPosCur then 1 else 0)
    }

    /** Moves past the entry returned last, to the next one to look at. */
    method Advance()
      requires Valid()
      modifies this
      ensures Ready() && emitted == old(emitted)
      ensures ip > old(ip) || (ip == old(ip) && (old(pos) == IterPosNext || ip == |job.input|))
    {
      hide Good, Tidy, Job.Valid, Job.TellsOf, Job.SkipStripe, SnapshotIndex;
      ghost var pending := Pending();
      if pos == IterPosCur {
        if skip {
          SkipInStripe();
          assert AtEntry() == pending;
        } else {
          var _ := NextInStripe();
          assert AtEntry() == pending;
        }
      }
      pos := IterPosCur;
    }

    method ReturnMarker()
      requires Ready() && ip < |job.input| && job.input[ip].kind == RangeDelete
      modifies this
      ensures Valid() && ip == old(ip) && pos == IterPosCur && key == job.input[ip] && emitted == old(emitted) + [key]
    {
      hide Good, Tidy, Markers, Job.Valid, Job.TellsOf, Job.SkipStripe, SnapshotIndex;
      key := job.input[ip];
      assert job.input[ip..] == [key] + job.input[ip + 1..];
      assert AtEntry() == [key] + Pending();
      PassMarker(job, emitted, added, key, Pending());
      added := added + [job.OfMarker(key)];
      emitted := emitted + [key];
    }

    /** Looks at one entry: drops it with its stripe, or returns it. */
    method Process() returns (returned: bool)
      requires Ready() && ip < |job.input|
      modifies this
      ensures !returned ==> Ready() && ip > old(ip) && emitted == old(emitted)
      ensures returned ==>
        Valid() && emitted == old(emitted) + [key] && (ip > old(ip) || (ip == old(ip) && pos == IterPosCur))
    {
      hide Good, Tidy, Markers, Job.Valid, Job.Deleted, Job.DeletedBy, Job.TellsOf, Job.Drops, Job.SkipStripe,
           SnapshotIndex;
      var e := job.input[ip];
      if e.kind == RangeDelete {
        ReturnMarker();
        return true;
      }
      TidyMarkers(job, emitted, job.input[ip..]);
      KnowsEnough(job, emitted, added, ip, ip);
      if job.DeletedBy(added, e) {
        DropDeleted(job, ip);
        DropStripe();
        return false;
      } else if e.kind == Delete && curSnapshotIdx == 0 && job.elideTombstone(e.key) {
        DropElided(job, ip);
        DropStripe();
        return false;
      } else if e.kind == Delete {
        ZeroStands(job, e, e);
        PointTrimmed(job, ip, e);
        ReturnPoint(e);
      } else if e.kind == Set {
        var out := MaybeZeroSeqNum(e, curSnapshotIdx);
        ZeroStands(job, out, e);
        PointTrimmed(job, ip, out);
        ReturnPoint(out);
      } else {
        ReturnMerge();
      }
      return true;
    }

    /** The next entry of the output, or None at the end of the input. */
    method Next() returns (result: Option<Entry>)
      requires Valid()
      modifies this
      ensures Valid()
      ensures result.Some? ==> emitted == old(emitted) + [result.value] && Progress() > old(Progress())
      ensures result == None ==> emitted == old(emitted) && Pending() == [] && Progress() >= old(Progress())
    {
      hide Good, Tidy, Job.Valid, Job.SkipStripe, SnapshotIndex;
      Advance();
      while ip < |job.input|
        invariant Ready() && emitted == old(emitted)
        invariant ip > old(ip) || (ip == old(ip) && (old(pos) == IterPosNext || ip == |job.input|))
        decreases |job.input| - ip
      {
        var returned := Process();
        if returned { return Some(key); }
      }
      assert job.input[ip..] == [];
      return None;
    }
  }

  /** A whole run of the iterator: the output reads like the input at every snapshot and at
      every point newer than the input, and its point entries are strictly ordered with at
      most one version of a key per sequence number, so a zeroed one is the last of its key.
      Every stripe of a key is collapsed to one entry, as far as range tombstones allow Merges to
      be, nothing is emitted that can be elided, and every range tombstone is passed on. */
  method Compact(job: Job) returns (output: seq<Entry>)
    requires job.Valid()
    ensures forall key, s :: job.Relevant(s) ==>
      Read(output + job.lower, job.kept + job.lowerTombs, job.merge, key, s, None)
      == Read(job.input + job.lower, job.tombs + job.lowerTombs, job.merge, key, s, None)
    ensures Ordered(output) && AllDerived(job, output, [])
    ensures Collapsed(job, output) && (forall e :: e in output ==> Trimmed(job, e)) && Markers(output) == Markers(job.input)
  {
    hide Good, Tidy, Collapsed, Trimmed, Markers, Job.Valid, Job.SkipStripe, SnapshotIndex;
    var iter := new Iterator(job);
    output := [];
    var next := iter.Next();
    while next.Some?
      invariant iter.Valid() && iter.job == job && fresh(iter)
      invariant next.Some? ==> iter.emitted == output + [next.value]
      invariant next == None ==> iter.emitted == output && iter.Pending() == []
      decreases 2 * |job.input| + 2 - iter.Progress(), next.Some?
    {
      output := output + [next.value];
      next := iter.Next();
    }
    forall key, s | job.Relevant(s)
      ensures Read(output + job.lower, job.kept + job.lowerTombs, job.merge, key, s, None)
           == Read(job.input + job.lower, job.tombs + job.lowerTombs, job.merge, key, s, None)
    {
      Finished(job, output, key, s);
    }
    AllTidy(job, output);
  }

  lemma {:induction false} AllTidy(job: Job, output: seq<Entry>)
    requires Ascending(job.snapshots) && Good(job, output, []) && Tidy(job, output, [])
    ensures Ordered(output) && AllDerived(job, output, [])
    ensures Collapsed(job, output) && (forall e :: e in output ==> Trimmed(job, e)) && Markers(output) == Markers(job.input)
  {
  }

  // --- range tombstones ----------------------------------------------------

  /** Fragments over one key range, newest first. */
  ghost predicate Chunk(fragments: seq<Tombstone>) {
    && (forall i, j :: 0 <= i < j < |fragments| ==> fragments[i].seqNum > fragments[j].seqNum)
    && (forall t, u :: t in fragments && u in fragments ==> t.start == u.start && t.end == u.end)
  }

  ghost predicate Represented(t: Tombstone, kept: seq<Tombstone>, snapshots: seq<nat>, elide: bool)
    requires Ascending(snapshots)
  {
    || (elide && SnapshotIndex(t.seqNum, snapshots) == 0)
    || exists u :: u in kept && SnapshotIndex(u.seqNum, snapshots) == SnapshotIndex(t.seqNum, snapshots) && u.seqNum >= t.seqNum
  }

  /** `kept` holds exactly the newest fragment of every stripe, less an elided bottom stripe. */
  ghost predicate NewestOfStripes(fragments: seq<Tombstone>, kept: seq<Tombstone>, snapshots: seq<nat>, elide: bool)
    requires Ascending(snapshots)
  {
    && (forall u :: u in kept ==> u in fragments)
    && (forall i, j :: 0 <= i < j < |kept| ==> SnapshotIndex(kept[i].seqNum, snapshots) > SnapshotIndex(kept[j].seqNum, snapshots))
    && (forall t {:trigger Represented(t, kept, snapshots, elide)} :: t in fragments ==> Represented(t, kept, snapshots, elide))
    && (elide ==> forall u :: u in kept ==> SnapshotIndex(u.seqNum, snapshots) > 0)
  }

  method EmitRangeDelChunk(fragments: seq<Tombstone>, snapshots: seq<nat>, elideRangeTombstone: (Key, Key) -> bool)
    returns (kept: seq<Tombstone>)
    requires Ascending(snapshots) && Chunk(fragments)
    ensures fragments == [] ==> kept == []
    ensures fragments != [] ==>
      NewestOfStripes(fragments, kept, snapshots, elideRangeTombstone(fragments[0].start, fragments[0].end))
  {
    hide SearchSnapshots;
    kept := [];
    var currentIdx: int := -1;
    ghost var elide := fragments != [] && elideRangeTombstone(fragments[0].start, fragments[0].end);
    for i := 0 to |fragments|
      invariant NewestOfStripes(fragments[..i], kept, snapshots, elide)
      invariant currentIdx == if kept == [] then -1 else SnapshotIndex(kept[|kept| - 1].seqNum, snapshots)
      invariant i == 0 || (kept != [] && SnapshotIndex(fragments[i - 1].seqNum, snapshots) == currentIdx)
      invariant currentIdx != 0 && (i == 0 ==> kept == [])
    {
      var v := fragments[i];
      var idx := SnapshotIndex(v.seqNum, snapshots);
      assert fragments[..i + 1] == fragments[..i] + [v];
      if i > 0 { IndexMonotone(snapshots, v.seqNum, fragments[i - 1].seqNum); }
      if currentIdx == idx {
        Shadowed(fragments, kept, snapshots, elide, i);
        continue;
      }
      assert v in fragments && fragments[0] in fragments;
      if idx == 0 {
        BottomRest(fragments, kept, snapshots, elide, i);
        if elideRangeTombstone(v.start, v.end) { return; }
      }
      Extend(fragments, kept, snapshots, elide, i);
      kept := kept + [v];
      if idx == 0 { return; }
      currentIdx := idx;
    }
    assert fragments[..|fragments|] == fragments;
  }

  /** A fragment of the stripe kept last is represented by it. */
  lemma {:induction false} Shadowed(
      fragments: seq<Tombstone>, kept: seq<Tombstone>, snapshots: seq<nat>, elide: bool, i: nat)
    requires Ascending(snapshots) && Chunk(fragments) && i < |fragments| && kept != []
    requires SnapshotIndex(fragments[i].seqNum, snapshots) == SnapshotIndex(kept[|kept| - 1].seqNum, snapshots)
    requires NewestOfStripes(fragments[..i], kept, snapshots, elide)
    ensures NewestOfStripes(fragments[..i + 1], kept, snapshots, elide)
  {
    hide SearchSnapshots;
    var u := kept[|kept| - 1];
    assert u in fragments[..i];
    var j :| 0 <= j < i && fragments[j] == u;
    assert Represented(fragments[i], kept, snapshots, elide);
    forall t | t in fragments[..i + 1] ensures Represented(t, kept, snapshots, elide) {
      if t != fragments[i] { assert t in fragments[..i]; }
    }
  }

  /** The first fragment of a new stripe above the bottom is kept. */
  lemma {:induction false} Extend(
      fragments: seq<Tombstone>, kept: seq<Tombstone>, snapshots: seq<nat>, elide: bool, i: nat)
    requires Ascending(snapshots) && i < |fragments|
    requires NewestOfStripes(fragments[..i], kept, snapshots, elide)
    requires kept != [] ==>
      SnapshotIndex(kept[|kept| - 1].seqNum, snapshots) > SnapshotIndex(fragments[i].seqNum, snapshots)
    ensures SnapshotIndex(fragments[i].seqNum, snapshots) > 0 ==>
      NewestOfStripes(fragments[..i + 1], kept + [fragments[i]], snapshots, elide)
  {
    hide SearchSnapshots;
    var v := fragments[i];
    assert v in kept + [v];
    assert Represented(v, kept + [v], snapshots, elide);
    forall t | t in fragments[..i + 1] ensures Represented(t, kept + [v], snapshots, elide) {
      if t != v {
        assert t in fragments[..i];
        assert Represented(t, kept, snapshots, elide);
      }
    }
  }

  /** Once the bottom stripe is reached the remaining fragments are in it too. */
  lemma {:induction false} BottomRest(
      fragments: seq<Tombstone>, kept: seq<Tombstone>, snapshots: seq<nat>, elide: bool, i: nat)
    requires Ascending(snapshots) && Chunk(fragments) && i < |fragments|
    requires SnapshotIndex(fragments[i].seqNum, snapshots) == 0
    requires NewestOfStripes(fragments[..i], kept, snapshots, elide)
    requires forall u :: u in kept ==> SnapshotIndex(u.seqNum, snapshots) > 0
    ensures NewestOfStripes(fragments, if elide then kept else kept + [fragments[i]], snapshots, elide)
  {
    hide SearchSnapshots, Represented;
    var all := if elide then kept else kept + [fragments[i]];
    forall t | t in fragments ensures Represented(t, all, snapshots, elide) {
      var j :| 0 <= j < |fragments| && fragments[j] == t;
      BottomRepresented(fragments, kept, snapshots, elide, i, j);
    }
  }

  lemma {:induction false} BottomRepresented(
      fragments: seq<Tombstone>, kept: seq<Tombstone>, snapshots: seq<nat>, elide: bool, i: nat, j: nat)
    requires Ascending(snapshots) && Chunk(fragments) && i < |fragments| && j < |fragments|
    requires SnapshotIndex(fragments[i].seqNum, snapshots) == 0
    requires NewestOfStripes(fragments[..i], kept, snapshots, elide)
    ensures Represented(fragments[j], if elide then kept else kept + [fragments[i]], snapshots, elide)
  {
    hide SearchSnapshots, SnapshotIndex;
    if j < i {
      assert fragments[..i][j] == fragments[j];
      assert Represented(fragments[j], kept, snapshots, elide);
    } else {
      IndexMonotone(snapshots, fragments[j].seqNum, fragments[i].seqNum);
      assert fragments[i] in kept + [fragments[i]];
    }
  }

  lemma {:induction false} IndexMonotone(snapshots: seq<nat>, a: nat, b: nat)
    requires Ascending(snapshots) && a <= b
    ensures SnapshotIndex(a, snapshots) <= SnapshotIndex(b, snapshots)
  {
    var j := SnapshotIndex(b, snapshots);
    assert j < |snapshots| ==> b < snapshots[j];
  }

  function Flatten<T>(chunks: seq<seq<T>>): seq<T> {
    if chunks == [] then [] else Flatten(chunks[..|chunks| - 1]) + chunks[|chunks| - 1]
  }

  lemma {:induction false} FlattenMember<T>(chunks: seq<seq<T>>, x: T)
    ensures x in Flatten(chunks) <==> exists i :: 0 <= i < |chunks| && x in chunks[i]
  {
    if chunks != [] {
      var init := chunks[..|chunks| - 1];
      FlattenMember(init, x);
      assert forall i :: 0 <= i < |init| ==> init[i] == chunks[i];
    }
  }

  /** What elideRangeTombstone promises: nothing lies below an elided range, and sequence
      numbers are only zeroed when every range can be elided. */
  ghost predicate ElisionIsSafe(job: Job, chunks: seq<seq<Tombstone>>, elideRangeTombstone: (Key, Key) -> bool)
    requires forall i :: 0 <= i < |chunks| ==> chunks[i] != []
  {
    && (forall i, l :: 0 <= i < |chunks| && l in job.lower && elideRangeTombstone(chunks[i][0].start, chunks[i][0].end)
          ==> !chunks[i][0].Contains(l.key))
    && (job.allowZeroSeqNum ==>
          forall i :: 0 <= i < |chunks| ==> elideRangeTombstone(chunks[i][0].start, chunks[i][0].end))
  }

  /** Of each chunk exactly the newest fragment of every stripe is kept, less an elided bottom stripe. */
  ghost predicate Thinned(
      job: Job, chunks: seq<seq<Tombstone>>, elideRangeTombstone: (Key, Key) -> bool, kept: seq<Tombstone>)
    requires Ascending(job.snapshots) && forall i :: 0 <= i < |chunks| ==> chunks[i] != []
  {
    exists keeps :: kept == Flatten(keeps) && ThinnedTo(job, chunks, elideRangeTombstone, keeps)
  }

  ghost predicate ThinnedTo(
      job: Job, chunks: seq<seq<Tombstone>>, elideRangeTombstone: (Key, Key) -> bool, keeps: seq<seq<Tombstone>>)
    requires Ascending(job.snapshots) && forall i :: 0 <= i < |chunks| ==> chunks[i] != []
  {
    && |keeps| == |chunks|
    && forall i :: 0 <= i < |chunks| ==>
         NewestOfStripes(chunks[i], keeps[i], job.snapshots, elideRangeTombstone(chunks[i][0].start, chunks[i][0].end))
  }

  /** Nothing is left among `es` that could be collapsed, elided or zeroed. */
  ghost predicate Lean(job: Job, es: seq<Entry>)
    requires Ascending(job.snapshots)
  {
    Collapsed(job, es) && forall e :: e in es ==> Trimmed(job, e)
  }

  lemma {:induction false} FlattenNone()
    ensures Flatten<Tombstone>([]) == []
  {
  }

  lemma {:induction false} FlattenAdd(chunks: seq<seq<Tombstone>>, more: seq<Tombstone>)
    ensures Flatten(chunks + [more]) == Flatten(chunks) + more
  {
    assert (chunks + [more])[..|chunks|] == chunks;
  }

  /** The tombstones of every chunk, thinned out stripe by stripe, keep the coverage of all of them. */
  method EmitRangeDels(job: Job, chunks: seq<seq<Tombstone>>, elideRangeTombstone: (Key, Key) -> bool)
    returns (kept: seq<Tombstone>)
    requires Ascending(job.snapshots) && job.tombs == Flatten(chunks)
    requires forall i :: 0 <= i < |chunks| ==> chunks[i] != [] && Chunk(chunks[i])
    requires ElisionIsSafe(job, chunks, elideRangeTombstone)
    ensures job.(kept := kept).KeepsCoverage()
    ensures Fragmented(job.tombs) ==> Fragmented(kept)
    ensures Thinned(job, chunks, elideRangeTombstone, kept)
  {
    hide SnapshotIndex, NewestOfStripes, ElisionIsSafe, Job.KeepsCoverage, Chunk, Fragmented, Flatten, KeptOf,
         Ascending;
    ghost var keeps: seq<seq<Tombstone>> := [];
    kept := [];
    FlattenNone();
    for i := 0 to |chunks|
      invariant |keeps| == i && kept == Flatten(keeps)
      invariant forall j :: 0 <= j < i ==>
        NewestOfStripes(chunks[j], keeps[j], job.snapshots, elideRangeTombstone(chunks[j][0].start, chunks[j][0].end))
    {
      var some := EmitRangeDelChunk(chunks[i], job.snapshots, elideRangeTombstone);
      FlattenAdd(keeps, some);
      keeps := keeps + [some];
      kept := kept + some;
    }
    ChunksKeep(job, chunks, keeps, elideRangeTombstone);
    assert Thinned(job, chunks, elideRangeTombstone, kept) by { assert ThinnedTo(job, chunks, elideRangeTombstone, keeps); }
    if Fragmented(job.tombs) {
      forall i | 0 <= i < |chunks| ensures KeptOf(chunks[i], keeps[i]) {
        ChunkKept(chunks[i], keeps[i], job.snapshots, elideRangeTombstone(chunks[i][0].start, chunks[i][0].end));
      }
      KeptFragmented(chunks, keeps);
    }
  }

  /** One fragment may come before the other. */
  ghost predicate Follows(t: Tombstone, u: Tombstone) {
    (t.start == u.start && t.end == u.end && t.seqNum > u.seqNum) || t.end <= u.start
  }

  lemma {:induction false} FragmentedParts(a: seq<Tombstone>, b: seq<Tombstone>)
    requires Fragmented(a + b)
    ensures Fragmented(a) && Fragmented(b) && forall t, u :: t in a && u in b ==> Follows(t, u)
  {
    var all := a + b;
    forall i, j | 0 <= i < j < |a| ensures Follows(a[i], a[j]) { assert all[i] == a[i] && all[j] == a[j]; }
    forall i, j | 0 <= i < j < |b| ensures Follows(b[i], b[j]) { assert all[|a| + i] == b[i] && all[|a| + j] == b[j]; }
    forall i | 0 <= i < |a| ensures a[i].start < a[i].end { assert all[i] == a[i]; }
    forall i | 0 <= i < |b| ensures b[i].start < b[i].end { assert all[|a| + i] == b[i]; }
    forall t, u | t in a && u in b ensures Follows(t, u) {
      var i :| 0 <= i < |a| && a[i] == t;
      var j :| 0 <= j < |b| && b[j] == u;
      assert all[i] == t && all[|a| + j] == u;
    }
  }

  lemma {:induction false} FragmentedWhole(a: seq<Tombstone>, b: seq<Tombstone>)
    requires Fragmented(a) && Fragmented(b) && forall t, u :: t in a && u in b ==> Follows(t, u)
    ensures Fragmented(a + b)
  {
    var all := a + b;
    forall i, j | 0 <= i < j < |all| ensures Follows(all[i], all[j]) {
      assert i < |a| ==> all[i] == a[i] && a[i] in a;
      assert j >= |a| ==> all[j] == b[j - |a|] && b[j - |a|] in b;
      if i >= |a| { assert all[i] == b[i - |a|]; }
    }
    forall i | 0 <= i < |all| ensures all[i].start < all[i].end { assert i >= |a| ==> all[i] == b[i - |a|]; }
  }

  /** What is kept of a chunk: some of it, in order. */
  ghost predicate KeptOf(chunk: seq<Tombstone>, kept: seq<Tombstone>) {
    (forall t :: t in kept ==> t in chunk) && (Fragmented(chunk) ==> Fragmented(kept))
  }

  lemma {:induction false} ChunkKept(chunk: seq<Tombstone>, kept: seq<Tombstone>, snapshots: seq<nat>, elide: bool)
    requires Ascending(snapshots) && Chunk(chunk) && NewestOfStripes(chunk, kept, snapshots, elide)
    ensures KeptOf(chunk, kept)
  {
    hide SnapshotIndex;
    if Fragmented(chunk) {
      forall i, j | 0 <= i < j < |kept| ensures kept[i].seqNum > kept[j].seqNum {
        assert kept[i] in kept && kept[j] in kept;
        IndexMonotone(snapshots, kept[i].seqNum, if kept[i].seqNum <= kept[j].seqNum then kept[j].seqNum else kept[i].seqNum);
      }
      forall i | 0 <= i < |kept| ensures kept[i].start < kept[i].end { assert kept[i] in chunk; }
    }
  }

  lemma {:induction false} KeptFragmented(chunks: seq<seq<Tombstone>>, keeps: seq<seq<Tombstone>>)
    requires |chunks| == |keeps| && forall i :: 0 <= i < |chunks| ==> KeptOf(chunks[i], keeps[i])
    requires Fragmented(Flatten(chunks))
    ensures Fragmented(Flatten(keeps)) && forall t :: t in Flatten(keeps) ==> t in Flatten(chunks)
  {
    hide Fragmented, Follows;
    var n := |chunks| - 1;
    if n >= 0 {
      FragmentedParts(Flatten(chunks[..n]), chunks[n]);
      KeptFragmented(chunks[..n], keeps[..n]);
      FragmentedWhole(Flatten(keeps[..n]), keeps[n]);
    } else {
      NothingFragmented();
    }
  }

  lemma {:induction false} NothingFragmented()
    ensures Fragmented([])
  {
  }

  lemma {:induction false} ChunksKeep(
      job: Job, chunks: seq<seq<Tombstone>>, keeps: seq<seq<Tombstone>>, elideRangeTombstone: (Key, Key) -> bool)
    requires Ascending(job.snapshots) && job.tombs == Flatten(chunks) && |keeps| == |chunks|
    requires forall i :: 0 <= i < |chunks| ==> chunks[i] != [] && Chunk(chunks[i])
    requires ElisionIsSafe(job, chunks, elideRangeTombstone)
    requires forall j :: 0 <= j < |chunks| ==>
      NewestOfStripes(chunks[j], keeps[j], job.snapshots, elideRangeTombstone(chunks[j][0].start, chunks[j][0].end))
    ensures job.(kept := Flatten(keeps)).KeepsCoverage()
  {
    hide SnapshotIndex, NewestOfStripes, Chunk, ElisionIsSafe, Flatten;
    var done := job.(kept := Flatten(keeps));
    forall u | u in done.kept
      ensures u in job.tombs && (job.allowZeroSeqNum ==> job.Stripe(u.seqNum) > 0)
    {
      FlattenMember(keeps, u);
      var i :| 0 <= i < |keeps| && u in keeps[i];
      ChunkSubset(job, chunks, i, keeps[i], elideRangeTombstone, u);
      FlattenMember(chunks, u);
    }
    forall t, key | t in job.tombs && t.Contains(key) ensures done.Keeps(t, key) {
      FlattenMember(chunks, t);
      var i :| 0 <= i < |chunks| && t in chunks[i];
      forall u | u in keeps[i] ensures u in done.kept { FlattenMember(keeps, u); }
      ChunkKeeps(job, done.kept, chunks, i, keeps[i], elideRangeTombstone, t, key);
    }
  }

  lemma {:induction false} ChunkSubset(
      job: Job, chunks: seq<seq<Tombstone>>, i: nat, kept: seq<Tombstone>, elideRangeTombstone: (Key, Key) -> bool, u: Tombstone)
    requires Ascending(job.snapshots) && i < |chunks| && forall i :: 0 <= i < |chunks| ==> chunks[i] != []
    requires ElisionIsSafe(job, chunks, elideRangeTombstone) && u in kept
    requires NewestOfStripes(chunks[i], kept, job.snapshots, elideRangeTombstone(chunks[i][0].start, chunks[i][0].end))
    ensures u in chunks[i] && (job.allowZeroSeqNum ==> job.Stripe(u.seqNum) > 0)
  {
    hide SnapshotIndex;
  }

  lemma {:induction false} ChunkKeeps(job: Job, all: seq<Tombstone>, chunks: seq<seq<Tombstone>>, i: nat, kept: seq<Tombstone>,
                                      elideRangeTombstone: (Key, Key) -> bool, t: Tombstone, key: Key)
    requires Ascending(job.snapshots) && i < |chunks| && forall i :: 0 <= i < |chunks| ==> chunks[i] != []
    requires ElisionIsSafe(job, chunks, elideRangeTombstone) && Chunk(chunks[i]) && t in chunks[i] && t.Contains(key)
    requires NewestOfStripes(chunks[i], kept, job.snapshots, elideRangeTombstone(chunks[i][0].start, chunks[i][0].end))
    requires forall u :: u in kept ==> u in all
    ensures job.(kept := all).Keeps(t, key)
  {
    hide SnapshotIndex;
    var c := chunks[i];
    assert c[0] in c;
    assert Represented(t, kept, job.snapshots, elideRangeTombstone(c[0].start, c[0].end));
    if u :| u in kept && job.Stripe(u.seqNum) == job.Stripe(t.seqNum) && u.seqNum >= t.seqNum {
      assert u in all && u.Contains(key);
    }
  }
}
