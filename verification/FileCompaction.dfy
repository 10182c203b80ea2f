/** compaction.go: a compaction takes some files of two levels, and the others stay where they are. */
module FileCompaction {
  import opened Wrappers
  import opened InternalKeys
  import opened MergingIter
  import opened RangeDel
  import opened ReadPath
  import opened StoreCompaction
  import C = CompactionIter
  import DB = DbIterator

  // --- files side by side ----------------------------------------------------------------

  /** All of `x` lies to the left of `y`. */
  ghost predicate Apart(x: Level, y: Level) {
    && (forall p, q :: p in x.points && q in y.points ==> p.key < q.key)
    && (forall t, q :: t in x.tombs && q in y.points ==> t.end <= q.key)
    && (forall p, u :: p in x.points && u in y.tombs ==> p.key < u.start)
    && (forall t, u :: t in x.tombs && u in y.tombs ==> t.end <= u.start)
  }

  ghost predicate Disjoint(x: Level, y: Level) {
    Apart(x, y) || Apart(y, x)
  }

  /** Two groups of files as one. */
  function Join(x: Level, y: Level): Level {
    Level(x.points + y.points, x.tombs + y.tombs)
  }

  ghost predicate Committed(x: Level) {
    forall t :: t in x.tombs ==> t.seqNum < SEQ_NUM_BATCH
  }

  // --- exchanging neighbours -----------------------------------------------------------------

  /** Of disjoint groups at most one has versions of a key, so their order does not matter. */
  lemma {:induction false} ReadSwap(
      x: Level, y: Level, tombs: seq<Tombstone>, merge: Merger, key: Key, s: nat, older: Option<Value>)
    requires Disjoint(x, y)
    ensures Read(x.points + y.points, tombs, merge, key, s, older) == Read(y.points + x.points, tombs, merge, key, s, older)
  {
    hide Covered;
    ReadAppend(x.points, y.points, tombs, merge, key, s, older);
    ReadAppend(y.points, x.points, tombs, merge, key, s, older);
    if forall p :: p in x.points ==> p.key != key {
      ReadNone(x.points, tombs, merge, key, s, older);
      ReadNone(x.points, tombs, merge, key, s, Read(y.points, tombs, merge, key, s, older));
    } else {
      assert forall q :: q in y.points ==> q.key != key;
      ReadNone(y.points, tombs, merge, key, s, older);
      ReadNone(y.points, tombs, merge, key, s, Read(x.points, tombs, merge, key, s, older));
    }
  }

  lemma {:induction false} StackOfTwo(above: seq<Level>, x: Level, y: Level, below: seq<Level>)
    ensures AllPoints(above + [x, y] + below) == AllPoints(above) + (x.points + y.points) + AllPoints(below)
    ensures AllTombs(above + [x, y] + below) == AllTombs(above) + (x.tombs + y.tombs) + AllTombs(below)
  {
    AllAppend(above + [x, y], below);
    AllAppend(above, [x, y]);
    assert [x, y][1..] == [y] && [y][1..] == [];
    assert AllPoints([y]) == y.points && AllTombs([y]) == y.tombs;
    assert AllPoints([x, y]) == x.points + y.points && AllTombs([x, y]) == x.tombs + y.tombs;
  }

  lemma {:induction false} SwapMeaning(
      above: seq<Level>, x: Level, y: Level, below: seq<Level>, merge: Merger, key: Key, s: nat)
    requires Disjoint(x, y)
    ensures Meaning(above + [x, y] + below, merge, key, s) == Meaning(above + [y, x] + below, merge, key, s)
  {
    hide Disjoint;
    StackOfTwo(above, x, y, below);
    StackOfTwo(above, y, x, below);
    var a, b := AllPoints(above), AllPoints(below);
    var t1, t2 := AllTombs(above + [x, y] + below), AllTombs(above + [y, x] + below);
    assert forall t :: t in t1 <==> t in t2;
    var xy, yx := x.points + y.points, y.points + x.points;
    forall e: Entry ensures Counts(e, t1, key, s) <==> Counts(e, t2, key, s) {}
    ReadSame(a + yx + b, t1, t2, merge, key, s, None);
    ReadThree(a, xy, b, t1, merge, key, s);
    ReadThree(a, yx, b, t1, merge, key, s);
    ReadSwap(x, y, t1, merge, key, s, Read(b, t1, merge, key, s, None));
  }

  lemma {:induction false} ReadThree(
      a: seq<Entry>, b: seq<Entry>, c: seq<Entry>, tombs: seq<Tombstone>, merge: Merger, key: Key, s: nat)
    ensures Read(a + b + c, tombs, merge, key, s, None)
         == Read(a, tombs, merge, key, s, Read(b, tombs, merge, key, s, Read(c, tombs, merge, key, s, None)))
  {
    ReadAppend(a + b, c, tombs, merge, key, s, None);
    ReadAppend(a, b, tombs, merge, key, s, Read(c, tombs, merge, key, s, None));
  }

  lemma {:induction false} DisjointLies(x: Level, y: Level)
    requires Disjoint(x, y) && forall t :: t in x.tombs + y.tombs ==> t.start < t.end
    ensures MayLieOn(x, y) && MayLieOn(y, x)
  {
  }

  lemma {:induction false} NotEmptyRanges(levels: seq<Level>, l: int)
    requires WellFormed(levels) && 0 <= l < |levels|
    ensures forall t :: t in levels[l].tombs ==> t.start < t.end
    ensures Sorted(levels[l].points) && Fragmented(levels[l].tombs) && OneOrigin(levels[l].tombs)
    ensures forall e :: e in levels[l].points ==> e.IsPoint()
  {
  }

  lemma {:induction false} SwapInvariant(above: seq<Level>, x: Level, y: Level, below: seq<Level>)
    requires Disjoint(x, y) && LevelInvariant(above + [x, y] + below)
    ensures LevelInvariant(above + [y, x] + below)
  {
    hide Disjoint, MayLieOn, WellFormed, NewerAbove;
    var was, now, n := above + [x, y] + below, above + [y, x] + below, |above|;
    assert was[n] == x && was[n + 1] == y;
    NotEmptyRanges(was, n);
    NotEmptyRanges(was, n + 1);
    DisjointLies(x, y);
    forall l | 0 <= l < |now|
      ensures Sorted(now[l].points) && Fragmented(now[l].tombs) && OneOrigin(now[l].tombs)
      ensures forall e :: e in now[l].points ==> e.IsPoint()
    {
      assert now[l] == was[Swapped(n, l)];
      NotEmptyRanges(was, Swapped(n, l));
    }
    IsWellFormed(now);
    forall a, b | 0 <= a < b < |now| ensures MayLieOn(now[a], now[b]) {
      assert now[a] == was[Swapped(n, a)] && now[b] == was[Swapped(n, b)];
      if a == n && b == n + 1 {
      } else {
        InvariantLies(was, Swapped(n, a), Swapped(n, b));
      }
    }
    LiesInvariant(now);
  }

  function Swapped(n: int, l: int): int {
    if l == n then n + 1 else if l == n + 1 then n else l
  }

  lemma {:induction false} IsWellFormed(levels: seq<Level>)
    requires forall l :: 0 <= l < |levels| ==>
      Sorted(levels[l].points) && Fragmented(levels[l].tombs) && OneOrigin(levels[l].tombs)
    requires forall l :: 0 <= l < |levels| ==> forall e :: e in levels[l].points ==> e.IsPoint()
    ensures WellFormed(levels)
  {
    hide Sorted, Fragmented, OneOrigin;
  }

  // --- joining and splitting ---------------------------------------------------------------------

  lemma {:induction false} JoinMeaning(
      above: seq<Level>, x: Level, y: Level, below: seq<Level>, merge: Merger, key: Key, s: nat)
    ensures Meaning(above + [Join(x, y)] + below, merge, key, s) == Meaning(above + [x, y] + below, merge, key, s)
  {
    StackOfOne(above, Join(x, y), below);
    StackOfTwo(above, x, y, below);
  }

  lemma {:induction false} SplitSorted(a: seq<Entry>, b: seq<Entry>)
    requires Sorted(a + b)
    ensures Sorted(a) && Sorted(b)
  {
    hide Less;
    assert forall i :: 0 <= i < |a| ==> (a + b)[i] == a[i];
    assert forall i :: 0 <= i < |b| ==> (a + b)[|a| + i] == b[i];
  }

  lemma {:induction false} SplitFragmented(a: seq<Tombstone>, b: seq<Tombstone>)
    requires Fragmented(a + b)
    ensures Fragmented(a) && Fragmented(b)
  {
    assert forall i :: 0 <= i < |a| ==> (a + b)[i] == a[i];
    assert forall i :: 0 <= i < |b| ==> (a + b)[|a| + i] == b[i];
  }

  lemma {:induction false} JoinFragmented(a: seq<Tombstone>, b: seq<Tombstone>)
    requires Fragmented(a) && Fragmented(b) && forall t, u :: t in a && u in b ==> t.end <= u.start
    ensures Fragmented(a + b)
  {
  }

  /** What has to hold of a level by itself. */
  ghost predicate LevelOk(x: Level) {
    && Sorted(x.points) && Fragmented(x.tombs) && OneOrigin(x.tombs) && forall e :: e in x.points ==> e.IsPoint()
  }

  lemma {:induction false} SplitOk(x: Level, y: Level)
    requires LevelOk(Join(x, y))
    ensures LevelOk(x) && LevelOk(y)
  {
    hide Sorted, Fragmented;
    SplitSorted(x.points, y.points);
    SplitFragmented(x.tombs, y.tombs);
  }

  lemma {:induction false} JoinOk(x: Level, y: Level)
    requires LevelOk(x) && LevelOk(y) && Apart(x, y) && Committed(x) && Committed(y)
    ensures LevelOk(Join(x, y))
  {
    hide Sorted, Fragmented;
    SortedAppend(x.points, y.points);
    JoinFragmented(x.tombs, y.tombs);
  }

  lemma {:induction false} JoinLies(x: Level, y: Level, z: Level)
    ensures MayLieOn(Join(x, y), z) <==> MayLieOn(x, z) && MayLieOn(y, z)
    ensures MayLieOn(z, Join(x, y)) <==> MayLieOn(z, x) && MayLieOn(z, y)
  {
    var j := Join(x, y);
    assert forall p :: p in j.points <==> p in x.points || p in y.points;
    assert forall t :: t in j.tombs <==> t in x.tombs || t in y.tombs;
  }

  /** All levels are fine by themselves and may lie on those below. */
  lemma {:induction false} InvariantIs(levels: seq<Level>)
    ensures LevelInvariant(levels) <==>
      && (forall l :: 0 <= l < |levels| ==> LevelOk(levels[l]))
      && forall a, b :: 0 <= a < b < |levels| ==> MayLieOn(levels[a], levels[b])
  {
    hide Sorted, Fragmented, OneOrigin;
    if LevelInvariant(levels) {
      forall l | 0 <= l < |levels| ensures LevelOk(levels[l]) { NotEmptyRanges(levels, l); }
      forall a, b | 0 <= a < b < |levels| ensures MayLieOn(levels[a], levels[b]) { InvariantLies(levels, a, b); }
    }
    if (forall l :: 0 <= l < |levels| ==> LevelOk(levels[l]))
       && forall a, b :: 0 <= a < b < |levels| ==> MayLieOn(levels[a], levels[b]) {
      IsWellFormed(levels);
      LiesInvariant(levels);
    }
  }

  lemma {:induction false} SplitInvariant(above: seq<Level>, x: Level, y: Level, below: seq<Level>)
    requires Apart(x, y) && LevelInvariant(above + [Join(x, y)] + below)
    ensures LevelInvariant(above + [x, y] + below)
  {
    hide Apart, LevelInvariant, LevelOk, MayLieOn, Join;
    var was, now, n := above + [Join(x, y)] + below, above + [x, y] + below, |above|;
    InvariantIs(was);
    InvariantIs(now);
    assert was[n] == Join(x, y) && now[n] == x && now[n + 1] == y;
    SplitOk(x, y);
    ApartLies(x, y);
    forall l | 0 <= l < |now| ensures LevelOk(now[l]) {
      assert l < n || l > n + 1 ==> now[l] == was[if l < n then l else l - 1];
    }
    forall a, b | 0 <= a < b < |now| ensures MayLieOn(now[a], now[b]) {
      var a', b' := if a <= n then a else a - 1, if b <= n then b else b - 1;
      assert a' < b' ==> MayLieOn(was[a'], was[b']);
      assert a < n || a > n + 1 ==> was[a'] == now[a];
      assert b < n || b > n + 1 ==> was[b'] == now[b];
      JoinLies(x, y, now[a]);
      JoinLies(x, y, now[b]);
    }
  }

  lemma {:induction false} ApartLies(x: Level, y: Level)
    requires Apart(x, y) && LevelOk(x) && LevelOk(y)
    ensures MayLieOn(x, y)
  {
    DisjointLies(x, y);
  }

  lemma {:induction false} JoinInvariant(above: seq<Level>, x: Level, y: Level, below: seq<Level>)
    requires Apart(x, y) && Committed(x) && Committed(y) && LevelInvariant(above + [x, y] + below)
    ensures LevelInvariant(above + [Join(x, y)] + below)
  {
    hide Apart, LevelInvariant, LevelOk, MayLieOn, Join, Committed;
    var was, now, n := above + [x, y] + below, above + [Join(x, y)] + below, |above|;
    InvariantIs(was);
    InvariantIs(now);
    assert now[n] == Join(x, y) && was[n] == x && was[n + 1] == y;
    assert LevelOk(was[n]) && LevelOk(was[n + 1]);
    JoinOk(x, y);
    forall l | 0 <= l < |now| ensures LevelOk(now[l]) {
      assert l < n || l > n ==> now[l] == was[if l < n then l else l + 1];
    }
    forall a, b | 0 <= a < b < |now| ensures MayLieOn(now[a], now[b]) {
      var a', b' := if a <= n then a else a + 1, if b < n then b else b + 1;
      assert MayLieOn(was[a'], was[b']);
      assert a != n ==> was[a'] == now[a];
      assert b != n ==> was[b'] == now[b];
      if a == n { assert MayLieOn(was[n], was[b']) && MayLieOn(was[n + 1], was[b']); }
      if b == n { assert MayLieOn(was[a'], was[n]) && MayLieOn(was[a'], was[n + 1]); }
      JoinLies(x, y, now[a]);
      JoinLies(x, y, now[b]);
    }
  }

  // --- stacks that mean the same -------------------------------------------------------------------

  ghost predicate MeansSame(a: seq<Level>, b: seq<Level>, merge: Merger) {
    forall key, s :: Meaning(a, merge, key, s) == Meaning(b, merge, key, s)
  }

  lemma {:induction false} Swap(
      all: seq<Level>, above: seq<Level>, x: Level, y: Level, below: seq<Level>, merge: Merger) returns (now: seq<Level>)
    requires all == above + [x, y] + below && Disjoint(x, y) && LevelInvariant(all)
    ensures now == above + [y, x] + below && LevelInvariant(now) && MeansSame(all, now, merge)
  {
    hide Meaning, LevelInvariant, Disjoint;
    now := above + [y, x] + below;
    SwapInvariant(above, x, y, below);
    forall key, s ensures Meaning(all, merge, key, s) == Meaning(now, merge, key, s) {
      SwapMeaning(above, x, y, below, merge, key, s);
    }
  }

  lemma {:induction false} Split(
      all: seq<Level>, above: seq<Level>, x: Level, y: Level, below: seq<Level>, merge: Merger) returns (now: seq<Level>)
    requires all == above + [Join(x, y)] + below && Apart(x, y) && LevelInvariant(all)
    ensures now == above + [x, y] + below && LevelInvariant(now) && MeansSame(all, now, merge)
  {
    hide Meaning, LevelInvariant, Apart, Join;
    now := above + [x, y] + below;
    SplitInvariant(above, x, y, below);
    forall key, s ensures Meaning(all, merge, key, s) == Meaning(now, merge, key, s) {
      JoinMeaning(above, x, y, below, merge, key, s);
    }
  }

  lemma {:induction false} Unite(
      all: seq<Level>, above: seq<Level>, x: Level, y: Level, below: seq<Level>, merge: Merger) returns (now: seq<Level>)
    requires all == above + [x, y] + below && Apart(x, y) && Committed(x) && Committed(y) && LevelInvariant(all)
    ensures now == above + [Join(x, y)] + below && LevelInvariant(now) && MeansSame(all, now, merge)
  {
    hide Meaning, LevelInvariant, Apart, Join, Committed;
    now := above + [Join(x, y)] + below;
    JoinInvariant(above, x, y, below);
    forall key, s ensures Meaning(all, merge, key, s) == Meaning(now, merge, key, s) {
      JoinMeaning(above, x, y, below, merge, key, s);
    }
  }

  lemma {:induction false} JoinApart(x: Level, y: Level, z: Level)
    ensures Apart(x, z) && Apart(y, z) ==> Apart(Join(x, y), z)
    ensures Committed(x) && Committed(y) ==> Committed(Join(x, y))
  {
  }

  /** The files of a level: those to the left of what is compacted, those that are, and those to the right. */
  datatype Parts = Parts(left: Level, mid: Level, right: Level) {
    ghost predicate Valid() {
      && Apart(left, mid) && Apart(left, right) && Apart(mid, right) && Committed(left) && Committed(right)
    }
    function Whole(): Level { Join(Join(left, mid), right) }
  }

  lemma {:induction false} SplitParts(
      all: seq<Level>, above: seq<Level>, p: Parts, below: seq<Level>, merge: Merger) returns (now: seq<Level>)
    requires all == above + [p.Whole()] + below && p.Valid() && LevelInvariant(all)
    ensures now == above + [p.left, p.mid, p.right] + below && LevelInvariant(now) && MeansSame(all, now, merge)
  {
    hide Meaning, LevelInvariant, Apart, Join, Committed;
    JoinApart(p.left, p.mid, p.right);
    now := Split(all, above, Join(p.left, p.mid), p.right, below, merge);
    assert now == above + [Join(p.left, p.mid)] + ([p.right] + below);
    now := Split(now, above, p.left, p.mid, [p.right] + below, merge);
    assert now == above + [p.left, p.mid, p.right] + below;
  }

  lemma {:induction false} UniteParts(
      all: seq<Level>, above: seq<Level>, p: Parts, below: seq<Level>, merge: Merger) returns (now: seq<Level>)
    requires all == above + [p.left, p.mid, p.right] + below && p.Valid() && Committed(p.mid) && LevelInvariant(all)
    ensures now == above + [p.Whole()] + below && LevelInvariant(now) && MeansSame(all, now, merge)
  {
    hide Meaning, LevelInvariant, Apart, Join, Committed;
    JoinApart(p.left, p.mid, p.right);
    assert all == above + [p.left, p.mid] + ([p.right] + below);
    now := Unite(all, above, p.left, p.mid, [p.right] + below, merge);
    assert now == above + [Join(p.left, p.mid), p.right] + below;
    now := Unite(now, above, Join(p.left, p.mid), p.right, below, merge);
  }

  // --- the compaction ----------------------------------------------------------------------------------

  /** What is compacted of the upper level lies over nothing of the lower level but what is compacted of it. */
  ghost predicate Picked(upper: Parts, lower: Parts) {
    upper.Valid() && lower.Valid() && Apart(lower.left, upper.mid) && Apart(upper.mid, lower.right)
  }

  /** The files that stay can be put on top of those that are compacted. */
  lemma {:induction false} PutAside(
      all: seq<Level>, above: seq<Level>, u: Parts, w: Parts, below: seq<Level>, merge: Merger)
    returns (now: seq<Level>)
    requires all == above + [u.Whole(), w.Whole()] + below && Picked(u, w) && LevelInvariant(all)
    ensures now == above + [u.left, u.right, w.left, w.right] + [u.mid, w.mid] + below
    ensures LevelInvariant(now) && MeansSame(all, now, merge)
  {
    hide Meaning, LevelInvariant, Apart, Join, Committed, Parts.Whole;
    assert all == above + [u.Whole()] + ([w.Whole()] + below);
    now := SplitParts(all, above, u, [w.Whole()] + below, merge);
    assert now == (above + [u.left, u.mid, u.right]) + [w.Whole()] + below;
    now := SplitParts(now, above + [u.left, u.mid, u.right], w, below, merge);
    assert now == (above + [u.left]) + [u.mid, u.right] + ([w.left, w.mid, w.right] + below);
    now := Swap(now, above + [u.left], u.mid, u.right, [w.left, w.mid, w.right] + below, merge);
    assert now == (above + [u.left, u.right]) + [u.mid, w.left] + ([w.mid, w.right] + below);
    now := Swap(now, above + [u.left, u.right], u.mid, w.left, [w.mid, w.right] + below, merge);
    assert now == (above + [u.left, u.right, w.left, u.mid]) + [w.mid, w.right] + below;
    now := Swap(now, above + [u.left, u.right, w.left, u.mid], w.mid, w.right, below, merge);
    assert now == (above + [u.left, u.right, w.left]) + [u.mid, w.right] + ([w.mid] + below);
    now := Swap(now, above + [u.left, u.right, w.left], u.mid, w.right, [w.mid] + below, merge);
    assert now == above + [u.left, u.right, w.left, w.right] + [u.mid, w.mid] + below;
  }

  /** And be put back beside the output. */
  lemma {:induction false} PutBack(
      all: seq<Level>, above: seq<Level>, u: Parts, w: Parts, out: Level, below: seq<Level>, merge: Merger)
    returns (now: seq<Level>)
    requires all == above + [u.left, u.right, w.left, w.right] + [out] + below && LevelInvariant(all)
    requires u.Valid() && Parts(w.left, out, w.right).Valid() && Committed(out)
    ensures now == above + [Join(u.left, u.right), Parts(w.left, out, w.right).Whole()] + below
    ensures LevelInvariant(now) && MeansSame(all, now, merge)
  {
    hide Meaning, LevelInvariant, Apart, Join, Committed, Parts.Whole;
    var p := Parts(w.left, out, w.right);
    assert all == (above + [u.left, u.right, w.left]) + [w.right, out] + below;
    now := Swap(all, above + [u.left, u.right, w.left], w.right, out, below, merge);
    assert now == (above + [u.left, u.right]) + [p.left, p.mid, p.right] + below;
    now := UniteParts(now, above + [u.left, u.right], p, below, merge);
    assert now == above + [u.left, u.right] + ([p.Whole()] + below);
    now := Unite(now, above, u.left, u.right, [p.Whole()] + below, merge);
    assert now == above + [Join(u.left, u.right), p.Whole()] + below;
  }

  /** The output lies where the input did. */
  lemma {:induction false} OutputBetween(job: C.Job, u: Parts, w: Parts, out: Level)
    requires Picked(u, w) && SameCover(job.tombs, AllTombs([u.mid, w.mid]))
    requires forall e :: e in Points(job.input) <==> e in AllPoints([u.mid, w.mid])
    requires forall t :: t in out.tombs ==> t in job.tombs && t.start < t.end
    requires forall q :: q in out.points ==> C.Derived(job, q)
    ensures Apart(w.left, out) && Apart(out, w.right)
  {
    hide Apart, SameCover, AllPoints, AllTombs, C.Derived;
    var inputs := [u.mid, w.mid];
    forall q | q in out.points ensures Within(w.left, w.right, q.key) {
      var e := DerivedFrom(job, inputs, q);
      var l := PointOfStack(inputs, e);
      PointWithin(w.left, inputs[l], w.right, e);
    }
    forall t, key | t in out.tombs && t.Contains(key) ensures Within(w.left, w.right, key) {
      var v := Counterpart(job.tombs, AllTombs(inputs), t, key);
      var l := TombOfStack(inputs, v);
      TombWithin(w.left, inputs[l], w.right, v, key);
    }
    BetweenIsApart(w.left, out, w.right);
  }

  /** The key lies between the two groups. */
  ghost predicate Within(left: Level, right: Level, key: Key) {
    && (forall p :: p in left.points ==> p.key < key) && (forall t :: t in left.tombs ==> t.end <= key)
    && (forall p :: p in right.points ==> key < p.key) && (forall t :: t in right.tombs ==> key < t.start)
  }

  lemma {:induction false} PointWithin(left: Level, mid: Level, right: Level, e: Entry)
    requires Apart(left, mid) && Apart(mid, right) && e in mid.points
    ensures Within(left, right, e.key)
  {
  }

  lemma {:induction false} TombWithin(left: Level, mid: Level, right: Level, t: Tombstone, key: Key)
    requires Apart(left, mid) && Apart(mid, right) && t in mid.tombs && t.Contains(key)
    ensures Within(left, right, key)
  {
  }

  lemma {:induction false} BetweenIsApart(left: Level, out: Level, right: Level)
    requires forall q :: q in out.points ==> Within(left, right, q.key)
    requires forall t, key :: t in out.tombs && t.Contains(key) ==> Within(left, right, key)
    requires forall t :: t in out.tombs ==> t.start < t.end
    ensures Apart(left, out) && Apart(out, right)
  {
    forall t | t in out.tombs ensures Within(left, right, t.start) {
      assert t.Contains(t.start);
    }
    forall t, q | t in out.tombs && q in right.points ensures t.end <= q.key {
      assert t.Contains(q.key) ==> Within(left, right, q.key);
    }
    forall t, v | t in out.tombs && v in right.tombs ensures t.end <= v.start {
      assert t.Contains(v.start) ==> Within(left, right, v.start);
    }
  }

  /** A compaction of some of the files of two levels. The store in which the output takes their place in the
      lower level keeps the level invariant and means the same, for every key, at every open snapshot and at every
      point newer than what was compacted. */
  method CompactFiles(job: C.Job, chunks: seq<seq<Tombstone>>, elideRangeTombstone: (Key, Key) -> bool,
                      ghost above: seq<Level>, ghost upper: Parts, ghost lower: Parts, ghost below: seq<Level>)
    returns (output: Level)
    requires LevelInvariant(above + [upper.Whole(), lower.Whole()] + below) && Picked(upper, lower) && job.Sound()
    requires forall e :: e in Points(job.input) <==> e in AllPoints([upper.mid, lower.mid])
    requires job.lower == AllPoints(below) && job.lowerTombs == AllTombs(below)
    requires SameCover(job.tombs, AllTombs([upper.mid, lower.mid])) && Fragmented(job.tombs)
    requires job.tombs == C.Flatten(chunks)
    requires forall i :: 0 <= i < |chunks| ==> chunks[i] != [] && C.Chunk(chunks[i])
    requires C.ElisionIsSafe(job, chunks, elideRangeTombstone)
    ensures var before, after := above + [upper.Whole(), lower.Whole()] + below,
                                 above + [Join(upper.left, upper.right), lower.(mid := output).Whole()] + below;
      && (forall key, s :: job.Relevant(s) ==> Meaning(after, job.merge, key, s) == Meaning(before, job.merge, key, s))
      && LevelInvariant(after) && DB.ZeroIsLast(output.points)
    ensures C.Lean(job, output.points) && C.Thinned(job, chunks, elideRangeTombstone, output.tombs)
  {
    hide C.ElisionIsSafe, C.Chunk, SameCover, Meaning, LevelInvariant, DB.ZeroIsLast, Fragmented, C.Job.Relevant, C.Job.Sound,
         Apart, Committed, Parts.Whole, Join, C.Derived, C.Lean, C.Thinned, MeansSame;
    ghost var before := above + [upper.Whole(), lower.Whole()] + below;
    ghost var aside := above + [upper.left, upper.right, lower.left, lower.right];
    ghost var split := PutAside(before, above, upper, lower, below, job.merge);
    output := CompactStore(job, chunks, elideRangeTombstone, aside, [upper.mid, lower.mid], below);
    NoEmptyRange(job.tombs);
    OutputBetween(job, upper, lower, output);
    OutputCommitted(job, output);
    ghost var after := PutBack(aside + [output] + below, above, upper, lower, output, below, job.merge);
    forall key, s | job.Relevant(s) ensures Meaning(after, job.merge, key, s) == Meaning(before, job.merge, key, s) {
      MeansAt(before, split, job.merge, key, s);
      MeansAt(aside + [output] + below, after, job.merge, key, s);
    }
  }

  lemma {:induction false} MeansAt(a: seq<Level>, b: seq<Level>, merge: Merger, key: Key, s: nat)
    requires MeansSame(a, b, merge)
    ensures Meaning(a, merge, key, s) == Meaning(b, merge, key, s)
  {
  }

  lemma {:induction false} NoEmptyRange(tombs: seq<Tombstone>)
    requires Fragmented(tombs)
    ensures forall t :: t in tombs ==> t.start < t.end
  {
  }

  lemma {:induction false} OutputCommitted(job: C.Job, out: Level)
    requires job.Sound() && forall t :: t in out.tombs ==> t in job.tombs
    ensures Committed(out)
  {
  }
}
