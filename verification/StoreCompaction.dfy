/** A compaction seen from the store: replacing the input levels by the output changes no read. */
module StoreCompaction {
  import opened Wrappers
  import opened InternalKeys
  import opened MergingIter
  import opened RangeDel
  import opened ReadPath
  import C = CompactionIter
  import I = InuseRanges
  import DB = DbIterator

  function Points(es: seq<Entry>): (r: seq<Entry>)
    ensures forall e :: e in r <==> e in es && e.IsPoint()
  {
    if es == [] then [] else (if es[0].IsPoint() then [es[0]] else []) + Points(es[1..])
  }

  /** Range tombstone markers do not matter to a read. */
  lemma {:induction false} ReadPoints(
      es: seq<Entry>, tombs: seq<Tombstone>, merge: Merger, key: Key, s: nat, older: Option<Value>)
    ensures Read(es, tombs, merge, key, s, older) == Read(Points(es), tombs, merge, key, s, older)
  {
    hide Counts;
    if es != [] {
      ReadPoints(es[1..], tombs, merge, key, s, older);
      var rest := Points(es[1..]);
      assert ([es[0]] + rest)[1..] == rest && [] + rest == rest;
    }
  }

  /** Nor do versions that it does not count. */
  lemma {:induction false} ReadCounting(
      es: seq<Entry>, tombs: seq<Tombstone>, merge: Merger, key: Key, s: nat, older: Option<Value>)
    ensures Read(es, tombs, merge, key, s, older) == Read(Counting(es, tombs, key, s), tombs, merge, key, s, older)
  {
    hide Counts;
    if es != [] {
      ReadCounting(es[1..], tombs, merge, key, s, older);
      var rest := Counting(es[1..], tombs, key, s);
      assert ([es[0]] + rest)[1..] == rest;
    }
  }

  lemma {:induction false} PointsSorted(es: seq<Entry>)
    requires Sorted(es)
    ensures Sorted(Points(es))
  {
    hide Less;
    if es != [] {
      PointsSorted(es[1..]);
      var rest := Points(es[1..]);
      assert forall y :: y in rest ==> y in es[1..] && Less(es[0], y);
      SortedAppend([es[0]], rest);
      assert [] + rest == rest;
    }
  }

  /** The merged input reads like the levels it comes from. */
  lemma {:induction false} MergedReads(
      inputs: seq<Level>, merged: seq<Entry>, tombs: seq<Tombstone>, merge: Merger, key: Key, s: nat,
      older: Option<Value>)
    requires LevelInvariant(inputs) && Sorted(merged) && forall e :: e in Points(merged) <==> e in AllPoints(inputs)
    ensures Read(merged, tombs, merge, key, s, older) == Read(AllPoints(inputs), tombs, merge, key, s, older)
  {
    hide Counts, LevelInvariant;
    ReadPoints(merged, tombs, merge, key, s, older);
    PointsSorted(merged);
    ReadCounting(Points(merged), tombs, merge, key, s, older);
    ReadCounting(AllPoints(inputs), tombs, merge, key, s, older);
    CountingSorted(Points(merged), tombs, key, s);
    StackSorted(inputs, tombs, key, s);
    SortedUnique(Counting(Points(merged), tombs, key, s), Counting(AllPoints(inputs), tombs, key, s));
  }

  lemma {:induction false} AllAppend(a: seq<Level>, b: seq<Level>)
    ensures AllPoints(a + b) == AllPoints(a) + AllPoints(b) && AllTombs(a + b) == AllTombs(a) + AllTombs(b)
  {
    PointsAppend(a, b);
    TombsAppend(a, b);
  }

  lemma {:induction false} PointsAppend(a: seq<Level>, b: seq<Level>)
    ensures AllPoints(a + b) == AllPoints(a) + AllPoints(b)
  {
    if a == [] {
      assert a + b == b;
    } else {
      assert (a + b)[0] == a[0] && (a + b)[1..] == a[1..] + b;
      PointsAppend(a[1..], b);
      assert AllPoints(a) == a[0].points + AllPoints(a[1..]);
      assert AllPoints(a + b) == a[0].points + (AllPoints(a[1..]) + AllPoints(b));
    }
  }

  lemma {:induction false} TombsAppend(a: seq<Level>, b: seq<Level>)
    ensures AllTombs(a + b) == AllTombs(a) + AllTombs(b)
  {
    if a == [] {
      assert a + b == b;
    } else {
      assert (a + b)[0] == a[0] && (a + b)[1..] == a[1..] + b;
      TombsAppend(a[1..], b);
      assert AllTombs(a) == a[0].tombs + AllTombs(a[1..]);
      assert AllTombs(a + b) == a[0].tombs + (AllTombs(a[1..]) + AllTombs(b));
    }
  }

  lemma {:induction false} StackOfOne(above: seq<Level>, x: Level, below: seq<Level>)
    ensures AllPoints(above + [x] + below) == AllPoints(above) + x.points + AllPoints(below)
    ensures AllTombs(above + [x] + below) == AllTombs(above) + x.tombs + AllTombs(below)
  {
    AllAppend(above + [x], below);
    AllAppend(above, [x]);
    assert AllPoints([x]) == x.points && AllTombs([x]) == x.tombs;
  }

  /** The levels above hide the rest of the stack: none of its tombstones covers them, and theirs cover all of it. */
  ghost predicate Hides(above: seq<Level>, points: seq<Entry>, tombs: seq<Tombstone>) {
    && (forall p, t :: p in AllPoints(above) && t in tombs && t.Contains(p.key) ==> t.seqNum <= p.seqNum)
    && (forall t, q :: t in AllTombs(above) && q in points && t.Contains(q.key) ==> q.seqNum < t.seqNum)
  }

  ghost predicate HiddenAt(above: seq<Level>, key: Key, s: nat) {
    exists t :: t in AllTombs(above) && t.Contains(key) && Visible(t.seqNum, s)
  }

  /** A read of the stack is a read of the levels above on top of one of the rest. */
  lemma {:induction false} ReadBelow(
      above: seq<Level>, points: seq<Entry>, tombs: seq<Tombstone>, merge: Merger, key: Key, s: nat)
    requires Hides(above, points, tombs)
    ensures Read(AllPoints(above) + points, AllTombs(above) + tombs, merge, key, s, None)
         == Read(AllPoints(above), AllTombs(above), merge, key, s,
                 if HiddenAt(above, key, s) then None else Read(points, tombs, merge, key, s, None))
  {
    var ta, all := AllTombs(above), AllTombs(above) + tombs;
    ReadAppend(AllPoints(above), points, all, merge, key, s, None);
    forall p | p in AllPoints(above) ensures Counts(p, all, key, s) <==> Counts(p, ta, key, s) {
      C.CoveredBoth(ta, tombs, key, p.seqNum, s);
    }
    ReadSame(AllPoints(above), all, ta, merge, key, s, Read(points, all, merge, key, s, None));
    if HiddenAt(above, key, s) {
      var t :| t in ta && t.Contains(key) && Visible(t.seqNum, s);
      forall q | q in points ensures !Counts(q, all, key, s) {
        C.CoveredBoth(ta, tombs, key, q.seqNum, s);
      }
      ReadNone(points, all, merge, key, s, None);
    } else {
      forall q | q in points ensures Counts(q, all, key, s) <==> Counts(q, tombs, key, s) {
        C.CoveredBoth(ta, tombs, key, q.seqNum, s);
      }
      ReadSame(points, all, tombs, merge, key, s, None);
    }
  }

  lemma {:induction false} SameCovered(
      a: seq<Tombstone>, b: seq<Tombstone>, c: seq<Tombstone>, key: Key, seqNum: nat, s: nat)
    requires SameCover(a, b)
    ensures Covered(a + c, key, seqNum, s) <==> Covered(b + c, key, seqNum, s)
  {
    C.CoveredBoth(a, c, key, seqNum, s);
    C.CoveredBoth(b, c, key, seqNum, s);
    CoveredLike(a, b, key, seqNum, s);
    CoveredLike(b, a, key, seqNum, s);
  }

  /** What a compaction of the levels `inputs` works on. Its tombstones are those of the inputs, fragmented. */
  ghost predicate IsJob(job: C.Job, above: seq<Level>, inputs: seq<Level>, below: seq<Level>) {
    && LevelInvariant(above + inputs + below) && job.Valid()
    && (forall e :: e in Points(job.input) <==> e in AllPoints(inputs)) && SameCover(job.tombs, AllTombs(inputs))
    && job.lower == AllPoints(below) && job.lowerTombs == AllTombs(below) && Fragmented(job.kept)
  }

  /** What it puts in their place. */
  ghost predicate IsOutput(job: C.Job, output: seq<Entry>, level: Level) {
    level == Level(Points(output), job.kept) && C.Ordered(output) && C.AllDerived(job, output, [])
  }

  lemma {:induction false} PointOfStack(levels: seq<Level>, e: Entry) returns (l: int)
    requires e in AllPoints(levels)
    ensures 0 <= l < |levels| && e in levels[l].points
  {
    AllPointsAre(levels, e);
    l :| 0 <= l < |levels| && e in levels[l].points;
  }

  lemma {:induction false} TombOfStack(levels: seq<Level>, t: Tombstone) returns (l: int)
    requires t in AllTombs(levels)
    ensures 0 <= l < |levels| && t in levels[l].tombs
  {
    AllTombsAre(levels, t);
    l :| 0 <= l < |levels| && t in levels[l].tombs;
  }

  /** Levels above hide levels below. */
  lemma {:induction false} InvariantHides(above: seq<Level>, rest: seq<Level>)
    requires LevelInvariant(above + rest)
    ensures Hides(above, AllPoints(rest), AllTombs(rest))
    ensures forall p, q :: p in AllPoints(above) && q in AllPoints(rest) && p.key == q.key ==> q.seqNum < p.seqNum
  {
    var all := above + rest;
    forall p, t | p in AllPoints(above) && t in AllTombs(rest) && t.Contains(p.key) ensures t.seqNum <= p.seqNum {
      var a := PointOfStack(above, p);
      var b := TombOfStack(rest, t);
      assert p in all[a].points && t in all[|above| + b].tombs;
    }
    forall t, q | t in AllTombs(above) && q in AllPoints(rest) && t.Contains(q.key) ensures q.seqNum < t.seqNum {
      var a := TombOfStack(above, t);
      var b := PointOfStack(rest, q);
      assert t in all[a].tombs && q in all[|above| + b].points;
    }
    forall p, q | p in AllPoints(above) && q in AllPoints(rest) && p.key == q.key ensures q.seqNum < p.seqNum {
      var a := PointOfStack(above, p);
      var b := PointOfStack(rest, q);
      assert p in all[a].points && q in all[|above| + b].points;
    }
  }

  lemma {:induction false} KeptFromTombs(job: C.Job)
    requires job.Valid()
    ensures OneOrigin(job.kept) && forall t :: t in job.kept ==> t in job.tombs
  {
  }

  /** The output is as old as the input. */
  lemma {:induction false} OutputHidden(
      job: C.Job, above: seq<Level>, inputs: seq<Level>, below: seq<Level>, output: seq<Entry>, level: Level)
    requires IsJob(job, above, inputs, below) && IsOutput(job, output, level)
    ensures Hides(above, level.points + AllPoints(below), level.tombs + AllTombs(below))
  {
    hide LevelInvariant, C.Job.Valid, C.Derived, C.Ordered, AllPoints, AllTombs, Fragmented, SameCover;
    assert above + inputs + below == above + (inputs + below);
    InvariantHides(above, inputs + below);
    AllAppend(inputs, below);
    KeptFromTombs(job);
    forall p, t | p in AllPoints(above) && t in level.tombs && t.Contains(p.key) ensures t.seqNum <= p.seqNum {
      var u := Counterpart(job.tombs, AllTombs(inputs), t, p.key);
      assert u in AllTombs(inputs) + AllTombs(below);
    }
    forall t, q | t in AllTombs(above) && q in level.points && t.Contains(q.key) ensures q.seqNum < t.seqNum {
      var e := DerivedFrom(job, inputs, q);
      assert e in AllPoints(inputs) + AllPoints(below);
    }
  }

  lemma {:induction false} DerivedFrom(job: C.Job, inputs: seq<Level>, q: Entry) returns (e: Entry)
    requires C.Derived(job, q) && forall e :: e in Points(job.input) <==> e in AllPoints(inputs)
    ensures e in job.input && e in AllPoints(inputs) && e.key == q.key && q.seqNum <= e.seqNum
    ensures (q.seqNum == e.seqNum || job.allowZeroSeqNum)
  {
    e :| e in job.input && e.IsPoint() && e.key == q.key && q.seqNum <= e.seqNum && (q.seqNum == e.seqNum || job.allowZeroSeqNum);
  }

  lemma {:induction false} SameMeaning(
      job: C.Job, above: seq<Level>, inputs: seq<Level>, below: seq<Level>, output: seq<Entry>, level: Level, key: Key,
      s: nat)
    requires IsJob(job, above, inputs, below) && IsOutput(job, output, level)
    requires Read(output + job.lower, job.kept + job.lowerTombs, job.merge, key, s, None)
          == Read(job.input + job.lower, job.tombs + job.lowerTombs, job.merge, key, s, None)
    ensures Meaning(above + [level] + below, job.merge, key, s) == Meaning(above + inputs + below, job.merge, key, s)
  {
    hide LevelInvariant, C.Job.Valid, C.Ordered, C.AllDerived, SameCover, Fragmented, Points, Hides, HiddenAt, Meaning, Read,
         AllPoints, AllTombs;
    OutputHidden(job, above, inputs, below, output, level);
    OldMeaning(job, above, inputs, below, key, s);
    NewMeaning(job, below, output, level, key, s);
    StackMeaning(above, level, below, job.merge, key, s);
  }

  /** What a stack means is what its upper levels mean on top of the others. */
  lemma {:induction false} StackMeaning(
      above: seq<Level>, level: Level, below: seq<Level>, merge: Merger, key: Key, s: nat)
    requires Hides(above, level.points + AllPoints(below), level.tombs + AllTombs(below))
    ensures Meaning(above + [level] + below, merge, key, s)
         == Read(AllPoints(above), AllTombs(above), merge, key, s,
                 if HiddenAt(above, key, s) then None
                 else Read(level.points + AllPoints(below), level.tombs + AllTombs(below), merge, key, s, None))
  {
    hide Hides, HiddenAt, Read, AllPoints, AllTombs;
    StackOfOne(above, level, below);
    var points, tombs := level.points + AllPoints(below), level.tombs + AllTombs(below);
    assert AllPoints(above) + level.points + AllPoints(below) == AllPoints(above) + points;
    assert AllTombs(above) + level.tombs + AllTombs(below) == AllTombs(above) + tombs;
    ReadBelow(above, points, tombs, merge, key, s);
  }

  lemma {:induction false} OldMeaning(
      job: C.Job, above: seq<Level>, inputs: seq<Level>, below: seq<Level>, key: Key, s: nat)
    requires IsJob(job, above, inputs, below)
    ensures Meaning(above + inputs + below, job.merge, key, s)
         == Read(AllPoints(above), AllTombs(above), job.merge, key, s,
                 if HiddenAt(above, key, s) then None else Read(job.input + job.lower, job.tombs + job.lowerTombs, job.merge, key, s, None))
    ensures job.lower == AllPoints(below) && job.lowerTombs == AllTombs(below)
  {
    assert above + inputs + below == above + (inputs + below);
    InvariantHides(above, inputs + below);
    InvariantOf(above, inputs, below);
    hide LevelInvariant, C.Job.Valid, Hides, HiddenAt, SameCover, Covered;
    AllAppend(above, inputs + below);
    AllAppend(inputs, below);
    ReadBelow(above, AllPoints(inputs + below), AllTombs(inputs + below), job.merge, key, s);
    var tombs := job.tombs + job.lowerTombs;
    forall e: Entry ensures Counts(e, AllTombs(inputs) + job.lowerTombs, key, s) <==> Counts(e, tombs, key, s) {
      SameCovered(job.tombs, AllTombs(inputs), job.lowerTombs, key, e.seqNum, s);
    }
    ReadSame(AllPoints(inputs) + job.lower, AllTombs(inputs) + job.lowerTombs, tombs, job.merge, key, s, None);
    ReadAppend(AllPoints(inputs), job.lower, tombs, job.merge, key, s, None);
    ReadAppend(job.input, job.lower, tombs, job.merge, key, s, None);
    JobSorted(job);
    MergedReads(inputs, job.input, tombs, job.merge, key, s, Read(job.lower, tombs, job.merge, key, s, None));
  }

  lemma {:induction false} JobSorted(job: C.Job)
    requires job.Valid()
    ensures Sorted(job.input)
  {
  }

  lemma {:induction false} InvariantOf(above: seq<Level>, inputs: seq<Level>, below: seq<Level>)
    requires LevelInvariant(above + inputs + below)
    ensures LevelInvariant(inputs)
  {
    var all := above + inputs + below;
    assert forall l :: 0 <= l < |inputs| ==> inputs[l] == all[|above| + l];
  }

  lemma {:induction false} NewMeaning(job: C.Job, below: seq<Level>, output: seq<Entry>, level: Level, key: Key, s: nat)
    requires level == Level(Points(output), job.kept) && job.lower == AllPoints(below)
    requires job.lowerTombs == AllTombs(below)
    ensures Read(level.points + AllPoints(below), level.tombs + AllTombs(below), job.merge, key, s, None)
         == Read(output + job.lower, job.kept + job.lowerTombs, job.merge, key, s, None)
  {
    var tombs := job.kept + job.lowerTombs;
    ReadAppend(level.points, job.lower, tombs, job.merge, key, s, None);
    ReadAppend(output, job.lower, tombs, job.merge, key, s, None);
    ReadPoints(output, tombs, job.merge, key, s, Read(job.lower, tombs, job.merge, key, s, None));
  }

  // --- the level invariant after a compaction -------------------------------------------

  lemma {:induction false} PointsOf(es: seq<Entry>)
    ensures es == [] ==> Points(es) == []
    ensures es != [] && es[0].IsPoint() ==> Points(es) == [es[0]] + Points(es[1..])
    ensures es != [] && !es[0].IsPoint() ==> Points(es) == Points(es[1..])
  {
  }

  lemma {:induction false} PointAt(es: seq<Entry>, j: nat) returns (b: nat)
    requires j < |Points(es)|
    ensures b < |es| && es[b] == Points(es)[j]
  {
    assert Points(es)[j] in Points(es);
    b :| b < |es| && es[b] == Points(es)[j];
  }

  /** The points are in the order of the sequence. */
  lemma {:induction false} PointsPair(es: seq<Entry>, i: nat, j: nat) returns (a: nat, b: nat)
    requires i < j < |Points(es)|
    ensures a < b < |es| && es[a] == Points(es)[i] && es[b] == Points(es)[j]
    decreases |es|
  {
    hide Points;
    PointsOf(es);
    if !es[0].IsPoint() {
      a, b := PointsPair(es[1..], i, j);
      a := a + 1;
    } else if i > 0 {
      a, b := PointsPair(es[1..], i - 1, j - 1);
      a := a + 1;
    } else {
      a := 0;
      b := PointAt(es[1..], j - 1);
    }
    b := b + 1;
  }

  lemma {:induction false} OutputBelow(es: seq<Entry>, i: int, j: int)
    requires C.Ordered(es) && 0 <= i < j < |Points(es)|
    ensures C.Below(Points(es)[i], Points(es)[j])
  {
    var a, b := PointsPair(es, i, j);
    assert Points(es)[i] in Points(es) && Points(es)[j] in Points(es);
  }

  lemma {:induction false} OutputLean(job: C.Job, es: seq<Entry>)
    requires C.Ascending(job.snapshots) && C.Collapsed(job, es) && forall e :: e in es ==> C.Trimmed(job, e)
    ensures C.Lean(job, Points(es))
  {
    hide C.OneEach, C.Trimmed, Points;
    forall i, j | 0 <= i < j < |Points(es)| ensures C.OneEach(job, Points(es)[i], Points(es)[j]) {
      var a, b := PointsPair(es, i, j);
    }
    PointsAre(es);
  }

  lemma {:induction false} PointsAre(es: seq<Entry>)
    ensures forall e :: e in Points(es) ==> e in es
  {
  }

  lemma {:induction false} LeanAnyway(job: C.Job, kept: seq<Tombstone>, es: seq<Entry>)
    requires C.Ascending(job.snapshots) && C.Lean(job.(kept := kept), es)
    ensures C.Lean(job, es)
  {
    forall i, j | 0 <= i < j < |es| ensures C.OneEach(job, es[i], es[j]) {
      assert C.OneEach(job.(kept := kept), es[i], es[j]);
    }
    forall e | e in es ensures C.Trimmed(job, e) { assert C.Trimmed(job.(kept := kept), e); }
  }

  lemma {:induction false} OutputSorted(es: seq<Entry>)
    requires C.Ordered(es)
    ensures Sorted(Points(es)) && DB.ZeroIsLast(Points(es))
  {
    forall i, j | 0 <= i < j < |Points(es)| ensures C.Below(Points(es)[i], Points(es)[j]) {
      OutputBelow(es, i, j);
    }
  }

  /** The output is newer than what lies below it. */
  lemma {:induction false} OutputNewer(job: C.Job, inputs: seq<Level>, p: Entry)
    requires job.Valid() && C.Derived(job, p) && forall e :: e in Points(job.input) <==> e in AllPoints(inputs)
    ensures forall q :: q in job.lower && q.key == p.key ==> q.seqNum < p.seqNum
    ensures forall t :: t in job.lowerTombs && t.Contains(p.key) ==> t.seqNum <= p.seqNum
  {
    var e := DerivedFrom(job, inputs, p);
  }

  lemma {:induction false} InvariantLies(levels: seq<Level>, a: int, b: int)
    requires LevelInvariant(levels) && 0 <= a < b < |levels|
    ensures MayLieOn(levels[a], levels[b])
  {
  }

  lemma {:induction false} LiesInvariant(levels: seq<Level>)
    requires WellFormed(levels) && forall a, b :: 0 <= a < b < |levels| ==> MayLieOn(levels[a], levels[b])
    ensures LevelInvariant(levels)
  {
    forall a, b | 0 <= a < b < |levels| ensures MayLieOn(levels[a], levels[b]) {}
  }

  lemma {:induction false} AboveLies(
      job: C.Job, above: seq<Level>, inputs: seq<Level>, below: seq<Level>, output: seq<Entry>, level: Level, a: int)
    requires IsJob(job, above, inputs, below) && IsOutput(job, output, level) && 0 <= a < |above|
    ensures MayLieOn(above[a], level)
  {
    hide LevelInvariant, C.Job.Valid, C.Derived, C.Ordered, AllPoints, AllTombs, Fragmented;
    OutputHidden(job, above, inputs, below, output, level);
    assert above + inputs + below == above + (inputs + below);
    InvariantHides(above, inputs + below);
    AllAppend(inputs, below);
    forall p | p in above[a].points ensures p in AllPoints(above) { AllPointsAre(above, p); }
    forall t | t in above[a].tombs ensures t in AllTombs(above) { AllTombsAre(above, t); }
    forall p, q | p in above[a].points && q in level.points && p.key == q.key ensures q.seqNum < p.seqNum {
      var e := DerivedFrom(job, inputs, q);
      assert e in AllPoints(inputs + below);
    }
  }

  lemma {:induction false} LiesBelow(
      job: C.Job, above: seq<Level>, inputs: seq<Level>, below: seq<Level>, output: seq<Entry>, level: Level, b: int)
    requires IsJob(job, above, inputs, below) && IsOutput(job, output, level) && 0 <= b < |below|
    ensures MayLieOn(level, below[b])
  {
    var all := above + inputs + below;
    forall q | q in below[b].points ensures q in job.lower { AllPointsAre(below, q); }
    forall t | t in below[b].tombs ensures t in job.lowerTombs { AllTombsAre(below, t); }
    forall p | p in level.points ensures C.Derived(job, p) {}
    KeptFromTombs(job);
    forall t, q | t in level.tombs && q in below[b].points && t.Contains(q.key) ensures q.seqNum < t.seqNum {
      var u := Counterpart(job.tombs, AllTombs(inputs), t, q.key);
      var l := TombOfStack(inputs, u);
      assert all[|above| + l] == inputs[l] && all[|above| + |inputs| + b] == below[b];
      InvariantLies(all, |above| + l, |above| + |inputs| + b);
    }
    hide LevelInvariant, C.Job.Valid, C.Derived;
    forall p | p in level.points
      ensures forall q :: q in job.lower && q.key == p.key ==> q.seqNum < p.seqNum
      ensures forall t :: t in job.lowerTombs && t.Contains(p.key) ==> t.seqNum <= p.seqNum
    {
      OutputNewer(job, inputs, p);
    }
  }

  lemma {:induction false} WellFormedAfter(above: seq<Level>, inputs: seq<Level>, below: seq<Level>, level: Level)
    requires WellFormed(above + inputs + below) && Sorted(level.points) && Fragmented(level.tombs)
    requires OneOrigin(level.tombs)
    requires forall e :: e in level.points ==> e.IsPoint()
    ensures WellFormed(above + [level] + below)
  {
    hide Sorted, Fragmented, OneOrigin;
    var was, now := above + inputs + below, above + [level] + below;
    forall l | 0 <= l < |now| && l != |above| ensures exists k :: 0 <= k < |was| && now[l] == was[k] {
      assert now[l] == was[if l < |above| then l else l - 1 + |inputs|];
    }
  }

  lemma {:induction false} InvariantAfter(
      job: C.Job, above: seq<Level>, inputs: seq<Level>, below: seq<Level>, output: seq<Entry>, level: Level)
    requires IsJob(job, above, inputs, below) && IsOutput(job, output, level)
    ensures LevelInvariant(above + [level] + below)
  {
    hide WellFormed, NewerAbove, MayLieOn, Sorted, Fragmented, OneOrigin, C.Job.Valid, C.Ordered, C.AllDerived;
    var was, now := above + inputs + below, above + [level] + below;
    OutputSorted(output);
    KeptFromTombs(job);
    WellFormedAfter(above, inputs, below, level);
    forall a, b | 0 <= a < b < |now| ensures MayLieOn(now[a], now[b]) {
      if b == |above| {
        AboveLies(job, above, inputs, below, output, level, a);
      } else if a == |above| {
        LiesBelow(job, above, inputs, below, output, level, b - |above| - 1);
      } else {
        var shift := |inputs| - 1;
        InvariantLies(was, if a < |above| then a else a + shift, if b < |above| then b else b + shift);
      }
    }
    LiesInvariant(now);
  }

  /** A compaction: the store that holds the output level instead of the inputs keeps the level
      invariant and means the same, for every key, at every open snapshot and at every point newer
      than what was compacted. */
  method CompactLevels(job: C.Job, ghost above: seq<Level>, ghost inputs: seq<Level>, ghost below: seq<Level>)
    returns (level: Level)
    requires IsJob(job, above, inputs, below)
    ensures forall key, s :: job.Relevant(s) ==>
      Meaning(above + [level] + below, job.merge, key, s) == Meaning(above + inputs + below, job.merge, key, s)
    ensures LevelInvariant(above + [level] + below) && DB.ZeroIsLast(level.points)
    ensures (forall q :: q in level.points ==> C.Derived(job, q)) && forall t :: t in level.tombs ==> t in job.tombs
    ensures C.Lean(job, level.points) && level.tombs == job.kept
  {
    hide C.Job.Relevant, Meaning, LevelInvariant, C.Ordered, C.AllDerived, C.Derived, C.Lean, C.Collapsed, C.Trimmed,
         DB.ZeroIsLast;
    var output := C.Compact(job);
    level := Level(Points(output), job.kept);
    OutputSorted(output);
    KeptFromTombs(job);
    OutputDerived(job, output);
    OutputLean(job, output);
    InvariantAfter(job, above, inputs, below, output, level);
    forall key, s | job.Relevant(s)
      ensures Meaning(above + [level] + below, job.merge, key, s) == Meaning(above + inputs + below, job.merge, key, s)
    {
      SameMeaning(job, above, inputs, below, output, level, key, s);
    }
  }

  /** The same for a compaction that thins out the fragmented range tombstones, chunk by chunk, itself. */
  method CompactStore(job: C.Job, chunks: seq<seq<Tombstone>>, elideRangeTombstone: (Key, Key) -> bool,
                      ghost above: seq<Level>, ghost inputs: seq<Level>, ghost below: seq<Level>) returns (level: Level)
    requires LevelInvariant(above + inputs + below) && job.Sound()
    requires forall e :: e in Points(job.input) <==> e in AllPoints(inputs)
    requires job.lower == AllPoints(below) && job.lowerTombs == AllTombs(below)
    requires SameCover(job.tombs, AllTombs(inputs)) && Fragmented(job.tombs) && job.tombs == C.Flatten(chunks)
    requires forall i :: 0 <= i < |chunks| ==> chunks[i] != [] && C.Chunk(chunks[i])
    requires C.ElisionIsSafe(job, chunks, elideRangeTombstone)
    ensures forall key, s :: job.Relevant(s) ==>
      Meaning(above + [level] + below, job.merge, key, s) == Meaning(above + inputs + below, job.merge, key, s)
    ensures LevelInvariant(above + [level] + below) && DB.ZeroIsLast(level.points)
    ensures (forall q :: q in level.points ==> C.Derived(job, q)) && forall t :: t in level.tombs ==> t in job.tombs
    ensures C.Lean(job, level.points) && C.Thinned(job, chunks, elideRangeTombstone, level.tombs)
  {
    hide C.ElisionIsSafe, C.Chunk, SameCover, Meaning, LevelInvariant, DB.ZeroIsLast, Fragmented, C.Job.KeepsCoverage,
         C.Job.Relevant, C.Lean, C.ThinnedTo, C.Thinned;
    var kept := C.EmitRangeDels(job, chunks, elideRangeTombstone);
    var ready := job.(kept := kept);
    SoundAnyway(job, kept);
    level := CompactLevels(ready, above, inputs, below);
    forall q | q in level.points ensures C.Derived(job, q) { DerivedAnyway(job, kept, q); }
    LeanAnyway(job, kept, level.points);
    forall s ensures job.Relevant(s) <==> ready.Relevant(s) { RelevantAnyway(job, kept, s); }
  }

  lemma {:induction false} OutputDerived(job: C.Job, output: seq<Entry>)
    requires C.AllDerived(job, output, [])
    ensures forall q :: q in Points(output) ==> C.Derived(job, q)
  {
  }

  lemma {:induction false} DerivedAnyway(job: C.Job, kept: seq<Tombstone>, q: Entry)
    ensures C.Derived(job.(kept := kept), q) <==> C.Derived(job, q)
  {
  }

  lemma {:induction false} SoundAnyway(job: C.Job, kept: seq<Tombstone>)
    requires job.Sound()
    ensures job.(kept := kept).Sound()
  {
  }

  lemma {:induction false} RelevantAnyway(job: C.Job, kept: seq<Tombstone>, s: nat)
    ensures job.(kept := kept).Relevant(s) <==> job.Relevant(s)
  {
  }

  /** Whatever lies below between two keys lies in the files that are in use. */
  ghost predicate InFiles(files: seq<I.Range>, smallest: Key, largest: Key, points: seq<Entry>, tombs: seq<Tombstone>) {
    && (forall l :: l in points && smallest <= l.key <= largest ==> I.InUse(files, l.key))
    && (forall t, key :: t in tombs && t.Contains(key) && smallest <= key <= largest ==> I.InUse(files, key))
  }

  /** The answers of elideTombstone, elideRangeTombstone and allowZeroSeqNum are what a compaction relies on. */
  lemma {:induction false} ElisionIsSound(job: C.Job, chunks: seq<seq<Tombstone>>, elideRangeTombstone: (Key, Key) -> bool,
                                          files: seq<I.Range>, smallest: Key, largest: Key, flushing: bool, disabled: bool)
    requires forall key :: job.elideTombstone(key) <==> !flushing && !I.InUse(files, key)
    requires forall from, to :: elideRangeTombstone(from, to) <==> !disabled && !flushing && !I.AnyTouches(files, from, to)
    requires job.allowZeroSeqNum == elideRangeTombstone(smallest, largest)
    requires InFiles(files, smallest, largest, job.lower, job.lowerTombs)
    requires forall e :: e in job.input ==> smallest <= e.key <= largest
    requires forall i :: 0 <= i < |chunks| ==>
      chunks[i] != [] && smallest <= chunks[i][0].start && chunks[i][0].end <= largest
    ensures job.ElidesNothingBelow() && C.ElisionIsSafe(job, chunks, elideRangeTombstone)
  {
    hide I.InUse, I.AnyTouches;
    forall key, from, to | from <= key <= to && I.InUse(files, key) ensures I.AnyTouches(files, from, to) {
      InUseTouches(files, key, from, to);
    }
    forall i | 0 <= i < |chunks| && I.AnyTouches(files, chunks[i][0].start, chunks[i][0].end)
      ensures I.AnyTouches(files, smallest, largest)
    {
      TouchesMore(files, chunks[i][0].start, chunks[i][0].end, smallest, largest);
    }
  }

  lemma {:induction false} InUseTouches(files: seq<I.Range>, key: Key, from: Key, to: Key)
    requires I.InUse(files, key) && from <= key <= to
    ensures I.AnyTouches(files, from, to)
  {
    var r :| r in files && r.Contains(key);
    assert r.Touches(from, to);
  }

  lemma {:induction false} TouchesMore(files: seq<I.Range>, from: Key, to: Key, smallest: Key, largest: Key)
    requires I.AnyTouches(files, from, to) && smallest <= from && to <= largest
    ensures I.AnyTouches(files, smallest, largest)
  {
    var r :| r in files && r.Touches(from, to);
    assert r.Touches(smallest, largest);
  }
}
