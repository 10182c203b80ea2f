/** compaction.go: the key ranges in use below a compaction, and what may be elided outside them. */
module InuseRanges {
  import opened Wrappers
  import opened InternalKeys

  /** The keys of a file, both ends included. */
  datatype Range = Range(start: Key, end: Key) {
    predicate Contains(key: Key) { start <= key <= end }
    predicate Touches(from: Key, to: Key) { from <= end && start <= to }
  }

  ghost predicate InUse(ranges: seq<Range>, key: Key) {
    exists r :: r in ranges && r.Contains(key)
  }

  ghost predicate AnyTouches(ranges: seq<Range>, from: Key, to: Key) {
    exists r :: r in ranges && r.Touches(from, to)
  }

  predicate Proper(ranges: seq<Range>) {
    forall i :: 0 <= i < |ranges| ==> ranges[i].start <= ranges[i].end
  }

  ghost predicate SortedByStart(ranges: seq<Range>) {
    forall i, j :: 0 <= i < j < |ranges| ==> ranges[i].start <= ranges[j].start
  }

  /** In order, with a gap between any two. */
  ghost predicate Separated(ranges: seq<Range>) {
    && Proper(ranges)
    && forall i, j :: 0 <= i < j < |ranges| ==> ranges[i].end < ranges[j].start
  }

  /** The same keys are in use. */
  ghost predicate SameUnion(a: seq<Range>, b: seq<Range>) {
    forall key :: InUse(a, key) <==> InUse(b, key)
  }

  /** Adding a range to merged ones: a new range, or a longer last one. */
  function MergeOne(merged: seq<Range>, v: Range): seq<Range>
    requires merged != []
  {
    var last := merged[|merged| - 1];
    if last.end < v.start then merged + [v]
    else if last.end < v.end then merged[|merged| - 1 := Range(last.start, v.end)]
    else merged
  }

  lemma {:induction false} MergeOneIs(merged: seq<Range>, v: Range)
    requires merged != [] && Separated(merged) && v.start <= v.end && merged[|merged| - 1].start <= v.start
    ensures var m := MergeOne(merged, v);
      Separated(m) && m[|m| - 1].start <= v.start && SameUnion(m, merged + [v])
  {
    var n, m := |merged| - 1, MergeOne(merged, v);
    var front, last := merged[..n], merged[n];
    var longer := Range(last.start, v.end);
    assert merged == front + [last] && merged[n := longer] == front + [longer];
    forall key ensures InUse(m, key) <==> InUse(merged + [v], key) {
      InUseAdd(front, last, key);
      InUseAdd(merged, v, key);
      InUseAdd(front, longer, key);
    }
  }

  lemma {:induction false} SameUnionAdd(a: seq<Range>, b: seq<Range>, v: Range)
    requires SameUnion(a, b)
    ensures SameUnion(a + [v], b + [v])
  {
    forall key ensures InUse(a + [v], key) <==> InUse(b + [v], key) {
      InUseAdd(a, v, key);
      InUseAdd(b, v, key);
    }
  }

  lemma {:induction false} MergeStep(merged: seq<Range>, before: seq<Range>, v: Range)
    requires merged != [] && Separated(merged) && v.start <= v.end && merged[|merged| - 1].start <= v.start
    requires SameUnion(merged, before)
    ensures var m := MergeOne(merged, v);
      Separated(m) && m[|m| - 1].start <= v.start && SameUnion(m, before + [v])
  {
    hide Separated, SameUnion, MergeOne;
    MergeOneIs(merged, v);
    SameUnionAdd(merged, before, v);
    SameUnionTrans(MergeOne(merged, v), merged + [v], before + [v]);
  }

  lemma {:induction false} InUseAdd(a: seq<Range>, v: Range, key: Key)
    ensures InUse(a + [v], key) <==> InUse(a, key) || v.Contains(key)
  {
    if InUse(a, key) {
      var r :| r in a && r.Contains(key);
      assert r in a + [v];
    }
    if v.Contains(key) { assert v in a + [v]; }
  }

  lemma {:induction false} NothingMerged(ranges: seq<Range>)
    ensures ranges == [] ==> Separated(ranges) && SameUnion(ranges, ranges)
  {
  }

  lemma {:induction false} OneMerged(r: Range)
    requires r.start <= r.end
    ensures Separated([r]) && SameUnion([r], [r])
  {
  }

  /** Merges the ranges at the front of the array that holds them: the first `n` are separated and use
      the same keys. */
  method MergeInPlace(input: array<Range>) returns (n: nat)
    requires SortedByStart(input[..]) && Proper(input[..])
    modifies input
    ensures n <= input.Length && Separated(input[..n]) && SameUnion(input[..n], old(input[..]))
  {
    hide Separated, SameUnion;
    if input.Length == 0 { NothingMerged(input[..]); return 0; }
    n := 1;
    OneMerged(input[0]);
    assert input[..1] == [input[0]] == old(input[..1]);
    for i := 1 to input.Length
      invariant 1 <= n <= i
      invariant forall k :: i <= k < input.Length ==> input[k] == old(input[k])
      invariant Separated(input[..n]) && SameUnion(input[..n], old(input[..i]))
      invariant input[n - 1].start <= old(input[i - 1]).start
    {
      var v := input[i];
      ghost var merged := input[..n];
      assert v == old(input[i]) && old(input[..i + 1]) == old(input[..i]) + [v];
      assert old(input[..])[i] == v && old(input[..])[i - 1] == old(input[i - 1]);
      MergeStep(merged, old(input[..i]), v);
      var last := input[n - 1];
      if last.end < v.start {
        input[n] := v;
        n := n + 1;
      } else if last.end < v.end {
        input[n - 1] := Range(last.start, v.end);
      }
      assert input[..n] == MergeOne(merged, v);
    }
    assert old(input[..input.Length]) == old(input[..]);
  }

  lemma {:induction false} SameUnionTrans(a: seq<Range>, b: seq<Range>, c: seq<Range>)
    requires SameUnion(a, b) && SameUnion(b, c)
    ensures SameUnion(a, c)
  {
    forall key ensures InUse(a, key) <==> InUse(c, key) {
      assert InUse(a, key) <==> InUse(b, key);
    }
  }

  /** A range of one that is in use is touched by a query just when some key of it is in the query. */
  lemma {:induction false} SameTouches(a: seq<Range>, b: seq<Range>, from: Key, to: Key)
    requires SameUnion(a, b) && Proper(a) && Proper(b) && from <= to
    ensures AnyTouches(a, from, to) <==> AnyTouches(b, from, to)
  {
    TouchesIsInUse(a, from, to);
    TouchesIsInUse(b, from, to);
  }

  lemma {:induction false} TouchesIsInUse(a: seq<Range>, from: Key, to: Key)
    requires Proper(a) && from <= to
    ensures AnyTouches(a, from, to) <==> exists key :: from <= key <= to && InUse(a, key)
  {
    if AnyTouches(a, from, to) {
      var r :| r in a && r.Touches(from, to);
      var i :| 0 <= i < |a| && a[i] == r;
      var key := if r.start < from then from else r.start;
      assert r.Contains(key) && InUse(a, key);
    }
  }

  class Elision {
    const flushing: bool
    const disableRangeTombstoneElision: bool
    const inuseKeyRanges: seq<Range>
    ghost const files: seq<Range>      // the ranges before merging
    var elideTombstoneIndex: nat

    ghost predicate Valid()
      reads this
    {
      && Separated(inuseKeyRanges) && Proper(files) && SameUnion(inuseKeyRanges, files)
      && elideTombstoneIndex <= |inuseKeyRanges|
    }

    /** The cursor has passed only ranges that end before `key`. */
    ghost predicate CanTake(key: Key)
      reads this
    {
      Valid() && forall i :: 0 <= i < elideTombstoneIndex ==> inuseKeyRanges[i].end < key
    }

    constructor (ranges: seq<Range>, flushing: bool, disableRangeTombstoneElision: bool, ghost files: seq<Range>)
      requires Separated(ranges) && Proper(files) && SameUnion(ranges, files)
      ensures Valid() && this.flushing == flushing
      ensures this.disableRangeTombstoneElision == disableRangeTombstoneElision && this.files == files
      ensures forall key :: CanTake(key)
    {
      inuseKeyRanges, this.files, elideTombstoneIndex := ranges, files, 0;
      this.flushing, this.disableRangeTombstoneElision := flushing, disableRangeTombstoneElision;
    }

    /** For keys in order: true just when no file below may hold the key. */
    method ElideTombstone(key: Key) returns (elide: bool)
      requires CanTake(key)
      modifies this
      ensures forall later :: key <= later ==> CanTake(later)
      ensures elide <==> !flushing && !InUse(files, key)
    {
      if flushing { return false; }
      assert InUse(files, key) <==> InUse(inuseKeyRanges, key);
      while elideTombstoneIndex < |inuseKeyRanges|
        invariant CanTake(key)
        decreases |inuseKeyRanges| - elideTombstoneIndex
      {
        var r := inuseKeyRanges[elideTombstoneIndex];
        if key <= r.end {
          if key >= r.start {
            assert r in inuseKeyRanges;
            return false;
          }
          break;
        }
        elideTombstoneIndex := elideTombstoneIndex + 1;
      }
      NotInUse(inuseKeyRanges, key, elideTombstoneIndex);
      elide := true;
    }

    /** True just when no file below touches the range, its end included. */
    method ElideRangeTombstone(start: Key, end: Key) returns (elide: bool)
      requires Valid() && start <= end
      ensures elide <==> !disableRangeTombstoneElision && !flushing && !AnyTouches(files, start, end)
    {
      if disableRangeTombstoneElision || flushing { return false; }
      SameTouches(inuseKeyRanges, files, start, end);
      var lower := FirstEndingFrom(inuseKeyRanges, start);
      var upper := FirstStartingAfter(inuseKeyRanges, end);
      if lower < upper {
        assert inuseKeyRanges[lower] in inuseKeyRanges && inuseKeyRanges[lower].Touches(start, end);
      }
      elide := lower >= upper;
    }
  }

  lemma {:induction false} NotInUse(ranges: seq<Range>, key: Key, n: nat)
    requires Separated(ranges) && n <= |ranges|
    requires forall i :: 0 <= i < n ==> ranges[i].end < key
    requires n < |ranges| ==> key < ranges[n].start
    ensures !InUse(ranges, key)
  {
  }

  method FirstEndingFrom(ranges: seq<Range>, key: Key) returns (n: nat)
    requires Separated(ranges)
    ensures n <= |ranges| && forall i :: 0 <= i < |ranges| ==> (i < n <==> ranges[i].end < key)
  {
    n := 0;
    var upper := |ranges|;
    while n < upper
      invariant n <= upper <= |ranges|
      invariant forall i :: 0 <= i < n ==> ranges[i].end < key
      invariant forall i :: upper <= i < |ranges| ==> key <= ranges[i].end
    {
      var h := (n + upper) / 2;
      if ranges[h].end < key { n := h + 1; } else { upper := h; }
    }
  }

  method FirstStartingAfter(ranges: seq<Range>, key: Key) returns (n: nat)
    requires Separated(ranges)
    ensures n <= |ranges| && forall i :: 0 <= i < |ranges| ==> (i < n <==> ranges[i].start <= key)
  {
    n := 0;
    var upper := |ranges|;
    while n < upper
      invariant n <= upper <= |ranges|
      invariant forall i :: 0 <= i < n ==> ranges[i].start <= key
      invariant forall i :: upper <= i < |ranges| ==> key < ranges[i].start
    {
      var h := (n + upper) / 2;
      if ranges[h].start <= key { n := h + 1; } else { upper := h; }
    }
  }
}
