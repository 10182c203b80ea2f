/** merging_iter.go: the merged view of all levels, in both directions. */
module MergingIter {
  import opened Wrappers
  import opened InternalKeys
  import opened MergingIterHeap
  import opened RangeDel

  /** One level: sorted point entries and fragmented range tombstones. */
  datatype Level = Level(points: seq<Entry>, tombs: seq<Tombstone>)

  ghost predicate WellFormed(levels: seq<Level>) {
    && (forall l :: 0 <= l < |levels| ==>
          Sorted(levels[l].points) && Fragmented(levels[l].tombs) && OneOrigin(levels[l].tombs))
    && (forall l, e :: 0 <= l < |levels| && e in levels[l].points ==> e.IsPoint())
  }

  /** merging_iter.go:108-118: what lies in a higher level is newer. */
  ghost predicate NewerAbove(levels: seq<Level>) {
    && (forall a, b, p, q :: 0 <= a < b < |levels| && p in levels[a].points && q in levels[b].points && p.key == q.key
          ==> q.seqNum < p.seqNum)
    && (forall a, b, t, q :: 0 <= a < b < |levels| && t in levels[a].tombs && q in levels[b].points && t.Contains(q.key)
          ==> q.seqNum < t.seqNum)
    && (forall a, b, p, t :: 0 <= a < b < |levels| && p in levels[a].points && t in levels[b].tombs && t.Contains(p.key)
          ==> t.seqNum <= p.seqNum)
  }

  ghost predicate LevelInvariant(levels: seq<Level>) {
    WellFormed(levels) && NewerAbove(levels)
  }

  ghost predicate CoveredIn(levels: seq<Level>, l: int, key: Key, seqNum: nat, snapshot: nat) {
    0 <= l < |levels| && Covered(levels[l].tombs, key, seqNum, snapshot)
  }

  /** The entry `i` of level `l` is seen and no newer tombstone that is seen covers it. */
  ghost predicate Live(levels: seq<Level>, snapshot: nat, l: int, i: int)
    requires 0 <= l < |levels| && 0 <= i < |levels[l].points|
  {
    var e := levels[l].points[i];
    Visible(e.seqNum, snapshot) && forall m :: !CoveredIn(levels, m, e.key, e.seqNum, snapshot)
  }

  // --- directions ----------------------------------------------------------

  /** `a` comes before `b` in the direction of travel. */
  predicate Precedes(a: Entry, b: Entry, reverse: bool) {
    if reverse then Less(b, a) else Less(a, b)
  }

  /** Index `i` of a level is not behind its position `p`. */
  predicate Faces(p: int, i: int, reverse: bool) {
    if reverse then i <= p else p <= i
  }

  function Step(p: int, reverse: bool): int {
    if reverse then p - 1 else p + 1
  }

  /** What the iterator is still to return. */
  datatype Frontier = FromEnd | FromKey(key: Key) | Past(entry: Entry) {
    predicate Admits(e: Entry, reverse: bool) {
      match this
      case FromEnd => true
      case FromKey(key) => if reverse then e.key < key else key <= e.key
      case Past(entry) => Precedes(entry, e, reverse)
    }
  }

  lemma {:induction false} PrecedesTrans(a: Entry, b: Entry, c: Entry, reverse: bool)
    requires Precedes(a, b, reverse) && Precedes(b, c, reverse)
    ensures Precedes(a, c, reverse)
  {
  }

  lemma {:induction false} AdmitsLater(frontier: Frontier, a: Entry, b: Entry, reverse: bool)
    requires frontier.Admits(a, reverse) && Precedes(a, b, reverse)
    ensures frontier.Admits(b, reverse)
  {
  }

  // --- positions -----------------------------------------------------------

  /** Where an iterator may stand: at an entry, or off the end that it travels to. */
  predicate RangeOk(points: seq<Entry>, p: int, reverse: bool) {
    if reverse then -1 <= p < |points| else 0 <= p <= |points|
  }

  ghost predicate InRange(levels: seq<Level>, pos: seq<int>, reverse: bool) {
    |pos| == |levels| && forall l :: 0 <= l < |levels| ==> RangeOk(levels[l].points, pos[l], reverse)
  }

  /** The entries the levels stand at. */
  ghost function Active(levels: seq<Level>, pos: seq<int>): set<Item>
    requires |pos| == |levels|
  {
    set l | 0 <= l < |levels| && 0 <= pos[l] < |levels[l].points| :: Item(l, levels[l].points[pos[l]])
  }

  ghost predicate HeapOk(levels: seq<Level>, pos: seq<int>, items: seq<Item>, reverse: bool)
    ensures HeapOk(levels, pos, items, reverse) ==> InRange(levels, pos, reverse)
  {
    InRange(levels, pos, reverse) && multiset(items) == multiset(Active(levels, pos)) && IsHeap(items, reverse)
  }

  /** Everything still ahead is admitted. */
  ghost predicate Ahead(levels: seq<Level>, pos: seq<int>, frontier: Frontier, reverse: bool)
    requires |pos| == |levels|
  {
    forall l, i :: 0 <= l < |levels| && 0 <= i < |levels[l].points| && Faces(pos[l], i, reverse) ==>
      frontier.Admits(levels[l].points[i], reverse)
  }

  /** Nothing live and admitted was passed over. */
  ghost predicate NoneMissed(levels: seq<Level>, snapshot: nat, pos: seq<int>, frontier: Frontier, reverse: bool)
    requires |pos| == |levels|
  {
    forall l, i ::
      (&& 0 <= l < |levels| && 0 <= i < |levels[l].points|
       && !Faces(pos[l], i, reverse) && frontier.Admits(levels[l].points[i], reverse))
      ==> !Live(levels, snapshot, l, i)
  }

  /** Everything ahead comes after `e`. */
  ghost predicate AllAfter(levels: seq<Level>, pos: seq<int>, e: Entry, reverse: bool)
    requires |pos| == |levels|
  {
    Ahead(levels, pos, Past(e), reverse)
  }

  /** The item is the one its level stands at. */
  ghost predicate Stands(levels: seq<Level>, pos: seq<int>, item: Item)
    requires |pos| == |levels|
  {
    && item.index < |levels| && 0 <= pos[item.index] < |levels[item.index].points|
    && item.entry == levels[item.index].points[pos[item.index]]
  }

  lemma {:induction false} ActiveStands(levels: seq<Level>, pos: seq<int>)
    requires |pos| == |levels|
    ensures forall x :: x in Active(levels, pos) <==> Stands(levels, pos, x)
  {
    forall x | Stands(levels, pos, x) ensures x in Active(levels, pos) {
      assert x == Item(x.index, levels[x.index].points[pos[x.index]]);
    }
  }

  lemma {:induction false} RootStands(levels: seq<Level>, pos: seq<int>, items: seq<Item>)
    requires |pos| == |levels| && items != [] && multiset(items) == multiset(Active(levels, pos))
    ensures Stands(levels, pos, items[0])
  {
    hide Active;
    assert items[0] in multiset(items);
    ActiveStands(levels, pos);
  }

  /** The root of the heap comes before everything else that is ahead. */
  lemma {:induction false} RootIsFirstAhead(
      levels: seq<Level>, pos: seq<int>, items: seq<Item>, reverse: bool, l: int, i: int)
    requires LevelInvariant(levels) && HeapOk(levels, pos, items, reverse) && items != []
    requires 0 <= l < |levels| && 0 <= i < |levels[l].points| && Faces(pos[l], i, reverse)
    ensures (l == items[0].index && i == pos[l]) || Precedes(items[0].entry, levels[l].points[i], reverse)
  {
    hide Active, IsHeap, NewerAbove;
    RootStands(levels, pos, items);
    ActiveStands(levels, pos);
    var top := items[0];
    var cur := Item(l, levels[l].points[pos[l]]);
    assert Stands(levels, pos, cur);
    assert cur in multiset(items);
    var j :| 0 <= j < |items| && items[j] == cur;
    RootIsFirst(items, reverse, j);
    if top.index != l { DifferentKeys(levels, top, cur); }
    if i != pos[l] {
      assert Precedes(cur.entry, levels[l].points[i], reverse);
      if top.index != l { PrecedesTrans(top.entry, cur.entry, levels[l].points[i], reverse); }
    }
  }

  lemma {:induction false} DifferentKeys(levels: seq<Level>, a: Item, b: Item)
    requires LevelInvariant(levels) && a.index < |levels| && b.index < |levels| && a.index != b.index
    requires a.entry in levels[a.index].points && b.entry in levels[b.index].points
    ensures Less(a.entry, b.entry) || Less(b.entry, a.entry)
  {
    assert a.entry.key == b.entry.key ==> a.entry.seqNum != b.entry.seqNum;
  }

  // --- range tombstones ----------------------------------------------------

  method SeekFragment(tombs: seq<Tombstone>, key: Key, snapshot: nat, reverse: bool) returns (found: Option<Tombstone>)
    requires Fragmented(tombs) && OneOrigin(tombs)
    ensures IsNearest(tombs, snapshot, found, key, reverse) && (found.Some? ==> Reaches(found.value, key, reverse))
  {
    if reverse { found := RangeDel.SeekLE(tombs, key, snapshot); } else { found := RangeDel.SeekGE(tombs, key, snapshot); }
  }

  /** A cached fragment that reaches the key decides whether the level covers it. */
  lemma {:induction false} CachedDecides(
      tombs: seq<Tombstone>, snapshot: nat, cached: Option<Tombstone>, key: Key, seqNum: nat, reverse: bool)
    requires Fragmented(tombs) && IsNearest(tombs, snapshot, cached, key, reverse)
    requires cached.Some? ==> Reaches(cached.value, key, reverse)
    ensures Covered(tombs, key, seqNum, snapshot) <==>
      cached.Some? && cached.value.Contains(key) && cached.value.seqNum > seqNum
  {
    hide Fragmented;
    if Covered(tombs, key, seqNum, snapshot) {
      var t :| t in tombs && t.Contains(key) && t.seqNum > seqNum && Visible(t.seqNum, snapshot);
      assert Reaches(t, key, reverse);
      if reverse { Overlap(tombs, t, cached.value); } else { Overlap(tombs, cached.value, t); }
    }
  }

  /** A tombstone deletes whatever it contains in the levels below its own. */
  lemma {:induction false} DeadBelow(levels: seq<Level>, snapshot: nat, a: int, t: Tombstone, l: int, i: int)
    requires LevelInvariant(levels) && 0 <= a < l < |levels| && 0 <= i < |levels[l].points|
    requires t in levels[a].tombs && Visible(t.seqNum, snapshot) && t.Contains(levels[l].points[i].key)
    ensures !Live(levels, snapshot, l, i)
  {
    var e := levels[l].points[i];
    assert e in levels[l].points;
    assert CoveredIn(levels, a, e.key, e.seqNum, snapshot);
  }

  // --- seeking -------------------------------------------------------------

  /** The first point entry of a level at or after `key`. */
  function FirstGE(points: seq<Entry>, key: Key, i: nat): (n: int)
    requires Sorted(points) && i <= |points| && forall j :: 0 <= j < i ==> points[j].key < key
    ensures 0 <= n <= |points| && forall j :: 0 <= j < |points| ==> (j < n <==> points[j].key < key)
    decreases |points| - i
  {
    if i < |points| && points[i].key < key then FirstGE(points, key, i + 1)
    else
      assert forall j :: i < j < |points| ==> Less(points[i], points[j]);
      i
  }

  /** SeekGE and SeekLT of a level's point iterator. */
  function SeekPoint(points: seq<Entry>, key: Key, reverse: bool): (n: int)
    requires Sorted(points)
    ensures RangeOk(points, n, reverse)
    ensures forall i :: 0 <= i < |points| ==> (Faces(n, i, reverse) <==> FromKey(key).Admits(points[i], reverse))
  {
    if reverse then FirstGE(points, key, 0) - 1 else FirstGE(points, key, 0)
  }

  /** What a level stands before is admitted from `key` on, and what it skipped from there on is dead. */
  ghost predicate Sought(levels: seq<Level>, snapshot: nat, l: int, n: int, key: Key, reverse: bool)
    requires 0 <= l < |levels|
  {
    && (forall i :: 0 <= i < |levels[l].points| && Faces(n, i, reverse) ==> FromKey(key).Admits(levels[l].points[i], reverse))
    && (forall i :: 0 <= i < |levels[l].points| && !Faces(n, i, reverse) && FromKey(key).Admits(levels[l].points[i], reverse)
          ==> !Live(levels, snapshot, l, i))
  }

  /** The levels from `level` on have nothing live between the two keys. */
  ghost predicate DeadRange(levels: seq<Level>, snapshot: nat, level: int, from: Key, to: Key, reverse: bool) {
    forall l, i :: level <= l < |levels| && 0 <= l && 0 <= i < |levels[l].points|
      && FromKey(from).Admits(levels[l].points[i], reverse) && !FromKey(to).Admits(levels[l].points[i], reverse)
      ==> !Live(levels, snapshot, l, i)
  }

  /** How far a tombstone lets a seek skip. */
  function Beyond(t: Tombstone, reverse: bool): Key {
    if reverse then t.start else t.end
  }

  lemma {:induction false} ExtendDeadRange(
      levels: seq<Level>, snapshot: nat, level: int, from: Key, to: Key, t: Tombstone, reverse: bool)
    requires LevelInvariant(levels) && 0 <= level < |levels| && DeadRange(levels, snapshot, level, from, to, reverse)
    requires t in levels[level].tombs && Visible(t.seqNum, snapshot) && t.Contains(to)
    ensures DeadRange(levels, snapshot, level + 1, from, Beyond(t, reverse), reverse)
  {
    hide NewerAbove, Live;
    forall l, i | level + 1 <= l < |levels| && 0 <= i < |levels[l].points|
      && FromKey(from).Admits(levels[l].points[i], reverse) && !FromKey(Beyond(t, reverse)).Admits(levels[l].points[i], reverse)
      ensures !Live(levels, snapshot, l, i)
    {
      if FromKey(to).Admits(levels[l].points[i], reverse) { DeadBelow(levels, snapshot, level, t, l, i); }
    }
  }

  /** The key that a seek went on from, `k`, is where the level stands, and what lies between is dead. */
  lemma {:induction false} SoughtFrom(
      levels: seq<Level>, snapshot: nat, l: int, n: int, key: Key, k: Key, reverse: bool)
    requires 0 <= l < |levels| && DeadRange(levels, snapshot, l, key, k, reverse)
    requires if reverse then k <= key else key <= k
    requires forall i :: 0 <= i < |levels[l].points| ==>
      (Faces(n, i, reverse) <==> FromKey(k).Admits(levels[l].points[i], reverse))
    ensures Sought(levels, snapshot, l, n, key, reverse)
  {
    hide Live;
  }

  // --- the iterator --------------------------------------------------------

  /** Where the iterator is: not yet positioned, at an entry, or off the end it travelled to. */
  datatype Cursor = Fresh | At(entry: Entry) | Off(reverse: bool)

  function CursorAfter(result: Option<Entry>, reverse: bool): Cursor {
    if result.Some? then At(result.value) else Off(reverse)
  }

  class Iterator {
    const levels: seq<Level>
    const snapshot: nat
    const heap: Heap
    var dir: int                             // 1 forward, -1 reverse, 0 before the first call
    var pos: seq<int>                        // where each level's point iterator stands
    var tombstones: seq<Option<Tombstone>>   // the cached tombstone of each level
    ghost var frontier: Frontier

    constructor (levels: seq<Level>, snapshot: nat)
      requires LevelInvariant(levels)
      ensures Settled() && this.levels == levels && this.snapshot == snapshot && fresh(heap) && Position() == Fresh
    {
      this.levels, this.snapshot := levels, snapshot;
      heap := new Heap();
      dir := 0;
      pos := seq(|levels|, _ => 0);
      tombstones := seq(|levels|, _ => None);
      frontier := FromEnd;
    }

    ghost predicate Base()
      reads this
    {
      LevelInvariant(levels) && |tombstones| == |levels| && |pos| == |levels|
    }

    ghost predicate CachesOk(upTo: int, key: Key, reverse: bool)
      reads this
    {
      && |tombstones| == |levels|
      && forall l :: 0 <= l <= upTo && l < |levels| ==> IsNearest(levels[l].tombs, snapshot, tombstones[l], key, reverse)
    }

    ghost predicate Positioned(reverse: bool)
      reads this, heap
    {
      && LevelInvariant(levels) && heap.reverse == reverse && dir == (if reverse then -1 else 1) && |tombstones| == |levels|
      && HeapOk(levels, pos, heap.items, reverse)
      && (heap.items != [] ==> CachesOk(heap.items[0].index, heap.items[0].entry.key, reverse))
    }

    /** Positioned, with nothing missed. */
    ghost predicate Valid(reverse: bool)
      reads this, heap
    {
      && Positioned(reverse)
      && Ahead(levels, pos, frontier, reverse) && NoneMissed(levels, snapshot, pos, frontier, reverse)
    }

    /** Between two calls. */
    ghost predicate Settled()
      reads this, heap
    {
      Base() && if dir == 0 then heap.items == [] else Valid(heap.reverse)
    }

    function Position(): Cursor
      reads this, heap
    {
      if dir == 0 then Fresh else if heap.items == [] then Off(heap.reverse) else At(heap.items[0].entry)
    }

    /** initMinRangeDelIters and initMaxRangeDelIters. */
    method InitRangeDelIters(oldTopLevel: int, reverse: bool)
      requires LevelInvariant(levels) && |tombstones| == |levels| && -1 <= oldTopLevel
      requires heap.items != [] ==> heap.items[0].index < |levels|
      requires heap.items != [] ==> CachesOk(oldTopLevel, heap.items[0].entry.key, reverse)
      modifies this`tombstones
      ensures |tombstones| == |levels|
      ensures heap.items != [] ==> CachesOk(heap.items[0].index, heap.items[0].entry.key, reverse)
    {
      hide IsNearest, NewerAbove;
      if heap.items == [] { return; }
      var item := heap.items[0];
      var level := oldTopLevel + 1;
      while level <= item.index
        invariant 0 <= level && |tombstones| == |levels| && CachesOk(level - 1, item.entry.key, reverse)
      {
        var t := SeekFragment(levels[level].tombs, item.entry.key, snapshot, reverse);
        tombstones := tombstones[level := t];
        level := level + 1;
      }
    }

    /** initMinHeap and initMaxHeap. */
    method InitHeap(reverse: bool)
      requires Base() && InRange(levels, pos, reverse)
      modifies this`tombstones, this`dir, heap
      ensures Positioned(reverse)
    {
      hide NewerAbove, IsHeap, IsNearest, Active, ActiveBelow;
      dir := if reverse then -1 else 1;
      heap.reverse := reverse;
      heap.items := [];
      AllActive(levels, pos);
      for i := 0 to |levels|
        invariant |tombstones| == |levels| && heap.reverse == reverse && dir == if reverse then -1 else 1
        invariant multiset(heap.items) == multiset(ActiveBelow(levels, pos, i))
      {
        ActiveStep(levels, pos, i, heap.items);
        if 0 <= pos[i] < |levels[i].points| {
          heap.items := heap.items + [Item(i, levels[i].points[pos[i]])];
        }
      }
      heap.Init();
      assert heap.items != [] ==> heap.items[0] in multiset(heap.items);
      InitRangeDelIters(-1, reverse);
    }

    /** seekGE and seekLT: each tombstone found moves the key that the next level seeks. */
    method SeekLevels(key: Key, from: nat, reverse: bool)
      requires Base() && from <= |levels| && forall l :: 0 <= l < from ==> RangeOk(levels[l].points, pos[l], reverse)
      modifies this`pos, this`tombstones, this`dir, heap
      ensures Positioned(reverse)
      ensures forall l :: 0 <= l < from ==> pos[l] == old(pos)[l]
      ensures forall l :: from <= l < |levels| ==> Sought(levels, snapshot, l, pos[l], key, reverse)
    {
      hide NewerAbove, IsNearest, Sought, DeadRange, Live;
      var k := key;
      NoRange(levels, snapshot, from, key, reverse);
      for level := from to |levels|
        invariant |tombstones| == |levels| && |pos| == |levels|
        invariant (if reverse then k <= key else key <= k) && DeadRange(levels, snapshot, level, key, k, reverse)
        invariant forall l :: 0 <= l < from ==> pos[l] == old(pos)[l]
        invariant forall l :: 0 <= l < level ==> RangeOk(levels[l].points, pos[l], reverse)
        invariant forall l :: from <= l < level ==> Sought(levels, snapshot, l, pos[l], key, reverse)
      {
        var n := SeekPoint(levels[level].points, k, reverse);
        SoughtFrom(levels, snapshot, level, n, key, k, reverse);
        pos := pos[level := n];
        var t := SeekFragment(levels[level].tombs, k, snapshot, reverse);
        tombstones := tombstones[level := t];
        if t.Some? && t.value.Contains(k) {
          ExtendDeadRange(levels, snapshot, level, key, k, t.value, reverse);
          k := Beyond(t.value, reverse);
        } else {
          FewerLevels(levels, snapshot, level, key, k, reverse);
        }
      }
      InitHeap(reverse);
    }

    /** nextEntry and prevEntry: steps the level of the root and restores the heap. */
    method StepEntry(reverse: bool)
      requires Positioned(reverse) && heap.items != []
      modifies this`pos, this`tombstones, heap`items
      ensures Positioned(reverse)
      ensures var top := old(heap.items[0]);
              top.index < |levels| && pos == old(pos)[top.index := Step(old(pos)[top.index], reverse)]
              && AllAfter(levels, pos, top.entry, reverse)
    {
      hide NewerAbove, IsHeap, IsNearest, Before, Less, Active, Step, Faces, RangeOk, Ahead;
      var top := heap.items[0];
      StepHeap(reverse);
      if heap.items != [] {
        RootStands(levels, pos, heap.items);
        KeepCaches(top.index, top.entry, heap.items[0], reverse);
      }
      InitRangeDelIters(top.index, reverse);
    }

    method StepHeap(reverse: bool)
      requires LevelInvariant(levels) && heap.reverse == reverse && HeapOk(levels, pos, heap.items, reverse)
      requires heap.items != []
      modifies this`pos, heap`items
      ensures HeapOk(levels, pos, heap.items, reverse)
      ensures var top := old(heap.items[0]);
              top.index < |levels| && pos == old(pos)[top.index := Step(old(pos)[top.index], reverse)]
              && AllAfter(levels, pos, top.entry, reverse)
    {
      hide LevelInvariant, IsHeap, Before, Less, OkExcept, Active, Step, Faces, RangeOk, Ahead;
      var top := heap.items[0];
      var l := top.index;
      StepRoot(levels, pos, heap.items, reverse);
      StepActive(levels, pos, heap.items, pos[l := Step(pos[l], reverse)], reverse);
      pos := pos[l := Step(pos[l], reverse)];
      if 0 <= pos[l] < |levels[l].points| {
        ReplaceRoot(heap.items, Item(l, levels[l].points[pos[l]]), reverse);
        heap.items := heap.items[0 := Item(l, levels[l].points[pos[l]])];
        if |heap.items| > 1 { heap.Fix(0); }
      } else {
        var _ := heap.Pop();
      }
    }

    /** Cached tombstones stay good as the key moves on. */
    lemma {:induction false} KeepCaches(upTo: int, before: Entry, after: Item, reverse: bool)
      requires |pos| == |levels| && AllAfter(levels, pos, before, reverse) && Stands(levels, pos, after)
      requires CachesOk(upTo, before.key, reverse)
      ensures CachesOk(upTo, after.entry.key, reverse) && after.index < |levels|
    {
      assert Faces(pos[after.index], pos[after.index], reverse);
      assert Precedes(before, after.entry, reverse);
      assert forall t: Tombstone :: Reaches(t, after.entry.key, reverse) ==> Reaches(t, before.key, reverse);
    }

    /** isNextEntryDeleted and isPrevEntryDeleted: whether the root is deleted; if it is, moves past it. */
    method IsEntryDeleted(reverse: bool) returns (deleted: bool)
      requires Valid(reverse) && heap.items != []
      modifies this`pos, this`tombstones, this`dir, heap
      ensures Valid(reverse)
      ensures deleted ==> AllAfter(levels, pos, old(heap.items[0].entry), reverse)
      ensures !deleted ==>
        && pos == old(pos) && heap.items == old(heap.items)
        && var e := heap.items[0].entry; forall l :: !CoveredIn(levels, l, e.key, e.seqNum, snapshot)
    {
      hide IsHeap, Before, NewerAbove, HeapOk, Live, IsNearest, Ahead, NoneMissed, Covered, Tombstone.Contains;
      var item := heap.items[0];
      StepRoot(levels, pos, heap.items, reverse);
      assert item.entry in levels[item.index].points;
      for level := 0 to item.index + 1
        invariant Valid(reverse) && heap.items == old(heap.items) && pos == old(pos)
        invariant forall l :: 0 <= l < level ==> !CoveredIn(levels, l, item.entry.key, item.entry.seqNum, snapshot)
      {
        var t := LookUp(level, reverse);
        if t.Some? {
          if level < item.index {
            SeekPast(level, t.value, item, reverse);
            return true;
          }
          if t.value.seqNum > item.entry.seqNum {
            assert CoveredIn(levels, level, item.entry.key, item.entry.seqNum, snapshot);
            SkipDead(reverse);
            return true;
          }
        }
      }
      NoneBelow(levels, snapshot, item);
      return false;
    }

    /** Brings the cached tombstone of a level up to date; the tombstone if it contains the root's key. */
    method LookUp(level: nat, reverse: bool) returns (t: Option<Tombstone>)
      requires Valid(reverse) && heap.items != [] && level <= heap.items[0].index < |levels|
      modifies this`tombstones
      ensures Valid(reverse)
      ensures var e := heap.items[0].entry;
        && (CoveredIn(levels, level, e.key, e.seqNum, snapshot) <==> t.Some? && t.value.seqNum > e.seqNum)
        && (t.Some? ==> t.value in levels[level].tombs && Visible(t.value.seqNum, snapshot) && t.value.Contains(e.key))
    {
      hide IsHeap, Before, NewerAbove, HeapOk, IsNearest, Ahead, NoneMissed, Fragmented, OneOrigin, Covered;
      var e := heap.items[0].entry;
      if tombstones[level].Some? && !Reaches(tombstones[level].value, e.key, reverse) {
        t := SeekFragment(levels[level].tombs, e.key, snapshot, reverse);
        tombstones := tombstones[level := t];
      }
      CachedDecides(levels[level].tombs, snapshot, tombstones[level], e.key, e.seqNum, reverse);
      if tombstones[level] == None || !tombstones[level].value.Contains(e.key) { return None; }
      return tombstones[level];
    }

    /** Steps past a root that is not live. */
    method SkipDead(reverse: bool)
      requires Valid(reverse) && heap.items != []
      requires var e := heap.items[0].entry;
        !Visible(e.seqNum, snapshot) || exists l :: CoveredIn(levels, l, e.key, e.seqNum, snapshot)
      modifies this`pos, this`tombstones, heap`items
      ensures Valid(reverse) && AllAfter(levels, pos, old(heap.items[0].entry), reverse)
    {
      hide IsHeap, Before, NewerAbove, HeapOk, IsNearest, Ahead, NoneMissed;
      SkipMissesNone(levels, snapshot, pos, heap.items, frontier, reverse);
      StepEntry(reverse);
    }

    /** A tombstone above the root deletes everything it contains from the root's level on. */
    method SeekPast(level: nat, t: Tombstone, item: Item, reverse: bool)
      requires Valid(reverse) && heap.items != [] && item == heap.items[0] && level < item.index < |levels|
      requires t in levels[level].tombs && Visible(t.seqNum, snapshot) && t.Contains(item.entry.key)
      modifies this`pos, this`tombstones, this`dir, heap
      ensures Valid(reverse) && AllAfter(levels, pos, item.entry, reverse)
    {
      hide IsHeap, Before, NewerAbove, IsNearest, Ahead, NoneMissed, Sought;
      StepRoot(levels, pos, heap.items, reverse);
      ghost var before := pos;
      ghost var items := heap.items;
      SeekLevels(Beyond(t, reverse), item.index, reverse);
      SoughtPast(levels, snapshot, before, items, pos, frontier, level, t, reverse);
    }

    /** findNextEntry and findPrevEntry: the first entry, from the root on, that can be returned. */
    method FindEntry(reverse: bool) returns (result: Option<Entry>)
      requires Valid(reverse)
      modifies this`pos, this`tombstones, this`dir, heap
      ensures Valid(reverse) && IsNext(levels, snapshot, frontier, reverse, result)
      ensures Position() == CursorAfter(result, reverse)
    {
      hide IsHeap, Before, NewerAbove, HeapOk, IsNearest, Live, CountFrom, Ahead, NoneMissed, IsNext;
      while heap.items != []
        invariant Valid(reverse)
        decreases if heap.items == [] then 0 else CountFrom(levels, heap.items[0].entry, reverse)
      {
        ghost var top := heap.items[0];
        StepRoot(levels, pos, heap.items, reverse);
        CountPositive(levels, pos, top, reverse);
        var deleted := IsEntryDeleted(reverse);
        if !deleted {
          var item := heap.items[0];
          if Visible(item.entry.seqNum, snapshot) {
            RootIsNext(levels, snapshot, pos, heap.items, frontier, reverse);
            return Some(item.entry);
          }
          SkipDead(reverse);
        }
        if heap.items != [] { CountDecreases(levels, pos, top, heap.items, reverse); }
      }
      EmptyIsDone(levels, snapshot, pos, frontier, reverse);
      return None;
    }

    /** First and Last. */
    method FromTheEnd(reverse: bool) returns (result: Option<Entry>)
      requires Base()
      modifies this, heap
      ensures Settled() && IsNext(levels, snapshot, FromEnd, reverse, result)
      ensures Position() == CursorAfter(result, reverse)
      ensures Valid(reverse) && frontier == FromEnd
    {
      hide IsHeap, NewerAbove, HeapOk, IsNearest, Live, IsNext;
      pos := seq(|levels|, l requires 0 <= l < |levels| => if reverse then |levels[l].points| - 1 else 0);
      InitHeap(reverse);
      frontier := FromEnd;
      result := FindEntry(reverse);
    }

    /** SeekGE and SeekLT. */
    method Seek(key: Key, reverse: bool) returns (result: Option<Entry>)
      requires Base()
      modifies this, heap
      ensures Settled() && IsNext(levels, snapshot, FromKey(key), reverse, result)
      ensures Position() == CursorAfter(result, reverse)
    {
      hide IsHeap, NewerAbove, HeapOk, IsNearest, Live, IsNext;
      SeekLevels(key, 0, reverse);
      frontier := FromKey(key);
      result := FindEntry(reverse);
    }

    /** switchToMinHeap and switchToMaxHeap with a root: takes every level to where it is past the root. */
    method SwitchHeap(reverse: bool)
      requires Valid(!reverse) && heap.items != []
      modifies this, heap
      ensures Valid(reverse) && frontier == Past(old(heap.items[0].entry))
    {
      hide IsHeap, NewerAbove, IsNearest, Live, Ahead, NoneMissed, Active, Splits, RangeOk, HeapOk;
      var key, cur := heap.items[0].entry, heap.items[0].index;
      RootSplits(levels, pos, heap.items, reverse);
      for i := 0 to |levels|
        invariant |pos| == |levels| && |tombstones| == |levels| && cur < |levels| && heap.items == old(heap.items)
        invariant forall l :: 0 <= l < |levels| && (i <= l || l == cur) ==> pos[l] == old(pos)[l]
        invariant forall l :: 0 <= l < i && l != cur ==>
          RangeOk(levels[l].points, pos[l], reverse) && Splits(levels[l].points, pos[l], key, reverse)
      {
        if i != cur {
          LevelBefore(levels, old(pos), heap.items, i, reverse);
          var p := SwitchLevel(levels[i].points, pos[i], key, reverse);
          pos := pos[i := p];
        }
      }
      pos := pos[cur := Step(pos[cur], reverse)];
      AllSplit(levels, snapshot, pos, key, reverse);
      frontier := Past(key);
      InitHeap(reverse);
    }

    /** Next and Prev. */
    method Advance(reverse: bool) returns (result: Option<Entry>)
      requires Settled()
      modifies this, heap
      ensures Settled() && Position() == CursorAfter(result, reverse)
      ensures match old(Position())
              case At(e) => IsNext(levels, snapshot, Past(e), reverse, result)
              case Off(r) => if r == reverse then result == None else IsNext(levels, snapshot, FromEnd, reverse, result)
              case Fresh => IsNext(levels, snapshot, FromEnd, reverse, result)
    {
      hide IsHeap, NewerAbove, HeapOk, IsNearest, Live, Ahead, NoneMissed, IsNext;
      if dir != if reverse then -1 else 1 {
        if heap.items == [] {
          result := FromTheEnd(reverse);
        } else {
          SwitchHeap(reverse);
        }
        result := FindEntry(reverse);
        return;
      }
      if heap.items == [] { return None; }
      StepRoot(levels, pos, heap.items, reverse);
      MoveFrontier(levels, snapshot, pos, heap.items[0], frontier, reverse);
      frontier := Past(heap.items[0].entry);
      StepEntry(reverse);
      result := FindEntry(reverse);
    }
  }

  /** The entries ahead of position `p` are the ones after `key`. */
  ghost predicate Splits(points: seq<Entry>, p: int, key: Entry, reverse: bool) {
    forall i :: 0 <= i < |points| ==> (Faces(p, i, reverse) <==> Precedes(key, points[i], reverse))
  }

  /** Takes a level that stood at or before `key`, in the other direction, past it. */
  method SwitchLevel(points: seq<Entry>, from: int, key: Entry, reverse: bool) returns (p: int)
    requires Sorted(points) && RangeOk(points, from, !reverse)
    requires 0 <= from < |points| ==> Precedes(points[from], key, reverse)
    ensures RangeOk(points, p, reverse) && Splits(points, p, key, reverse)
  {
    p := from;
    if !(0 <= p < |points|) { p := if reverse then |points| - 1 else 0; }
    while 0 <= p < |points| && !Precedes(key, points[p], reverse)
      invariant RangeOk(points, p, reverse)
      invariant forall i :: 0 <= i < |points| && !Faces(p, i, reverse) ==> !Precedes(key, points[i], reverse)
      decreases if reverse then p + 1 else |points| - p
    {
      p := Step(p, reverse);
    }
  }

  lemma {:induction false} RootSplits(levels: seq<Level>, pos: seq<int>, items: seq<Item>, reverse: bool)
    requires LevelInvariant(levels) && HeapOk(levels, pos, items, !reverse) && items != []
    ensures var l := items[0].index;
      && l < |levels| && RangeOk(levels[l].points, Step(pos[l], reverse), reverse)
      && Splits(levels[l].points, Step(pos[l], reverse), items[0].entry, reverse)
  {
    hide NewerAbove, IsHeap, Active;
    RootStands(levels, pos, items);
  }

  lemma {:induction false} LevelBefore(levels: seq<Level>, pos: seq<int>, items: seq<Item>, l: nat, reverse: bool)
    requires LevelInvariant(levels) && HeapOk(levels, pos, items, !reverse) && items != [] && l < |levels|
    requires l != items[0].index
    ensures Sorted(levels[l].points) && RangeOk(levels[l].points, pos[l], !reverse)
    ensures 0 <= pos[l] < |levels[l].points| ==> Precedes(levels[l].points[pos[l]], items[0].entry, reverse)
  {
    if 0 <= pos[l] < |levels[l].points| { RootIsFirstAhead(levels, pos, items, !reverse, l, pos[l]); }
  }

  lemma {:induction false} AllSplit(levels: seq<Level>, snapshot: nat, pos: seq<int>, key: Entry, reverse: bool)
    requires |pos| == |levels|
    requires forall l :: 0 <= l < |levels| ==>
      RangeOk(levels[l].points, pos[l], reverse) && Splits(levels[l].points, pos[l], key, reverse)
    ensures InRange(levels, pos, reverse)
    ensures Ahead(levels, pos, Past(key), reverse) && NoneMissed(levels, snapshot, pos, Past(key), reverse)
  {
    hide Live;
  }

  /** Past the root, everything that was not missed before is still not missed. */
  lemma {:induction false} MoveFrontier(
      levels: seq<Level>, snapshot: nat, pos: seq<int>, top: Item, frontier: Frontier, reverse: bool)
    requires |pos| == |levels| && Stands(levels, pos, top)
    requires Ahead(levels, pos, frontier, reverse) && NoneMissed(levels, snapshot, pos, frontier, reverse)
    ensures NoneMissed(levels, snapshot, pos[top.index := Step(pos[top.index], reverse)], Past(top.entry), reverse)
  {
    hide Live;
    var next := pos[top.index := Step(pos[top.index], reverse)];
    forall l, i | 0 <= l < |levels| && 0 <= i < |levels[l].points| && !Faces(next[l], i, reverse)
      && Precedes(top.entry, levels[l].points[i], reverse)
      ensures !Live(levels, snapshot, l, i)
    {
      assert Faces(pos[top.index], pos[top.index], reverse);
      AdmitsLater(frontier, top.entry, levels[l].points[i], reverse);
    }
  }

  /** Stepping past a root that is not live misses nothing. */
  lemma {:induction false} SkipMissesNone(
      levels: seq<Level>, snapshot: nat, pos: seq<int>, items: seq<Item>, frontier: Frontier, reverse: bool)
    requires LevelInvariant(levels) && HeapOk(levels, pos, items, reverse) && items != []
    requires Ahead(levels, pos, frontier, reverse) && NoneMissed(levels, snapshot, pos, frontier, reverse)
    requires var e := items[0].entry;
      !Visible(e.seqNum, snapshot) || exists l :: CoveredIn(levels, l, e.key, e.seqNum, snapshot)
    ensures Stands(levels, pos, items[0])
    ensures var next := pos[items[0].index := Step(pos[items[0].index], reverse)];
      Ahead(levels, next, frontier, reverse) && NoneMissed(levels, snapshot, next, frontier, reverse)
  {
    hide NewerAbove, IsHeap, Active;
    RootStands(levels, pos, items);
    assert !Live(levels, snapshot, items[0].index, pos[items[0].index]);
  }

  // --- what the calls return -------------------------------------------------

  /** An entry of some level that a read at `snapshot` counts. */
  ghost predicate IsLive(levels: seq<Level>, snapshot: nat, e: Entry) {
    exists l, i :: 0 <= l < |levels| && 0 <= i < |levels[l].points| && levels[l].points[i] == e && Live(levels, snapshot, l, i)
  }

  /** `result` is the first live entry that the frontier admits, if there is one. */
  ghost predicate IsNext(levels: seq<Level>, snapshot: nat, frontier: Frontier, reverse: bool, result: Option<Entry>) {
    match result
    case None => forall e :: IsLive(levels, snapshot, e) ==> !frontier.Admits(e, reverse)
    case Some(r) =>
      && IsLive(levels, snapshot, r) && frontier.Admits(r, reverse)
      && forall e :: IsLive(levels, snapshot, e) && frontier.Admits(e, reverse) ==> e == r || Precedes(r, e, reverse)
  }

  lemma {:induction false} RootIsNext(
      levels: seq<Level>, snapshot: nat, pos: seq<int>, items: seq<Item>, frontier: Frontier, reverse: bool)
    requires LevelInvariant(levels) && HeapOk(levels, pos, items, reverse) && items != []
    requires Ahead(levels, pos, frontier, reverse) && NoneMissed(levels, snapshot, pos, frontier, reverse)
    requires var e := items[0].entry;
      Visible(e.seqNum, snapshot) && forall l :: !CoveredIn(levels, l, e.key, e.seqNum, snapshot)
    ensures IsNext(levels, snapshot, frontier, reverse, Some(items[0].entry))
  {
    hide IsHeap, Before, NewerAbove, HeapOk, Active, CoveredIn;
    var top := items[0];
    StepRoot(levels, pos, items, reverse);
    assert Live(levels, snapshot, top.index, pos[top.index]);
    assert Faces(pos[top.index], pos[top.index], reverse);
    forall e | IsLive(levels, snapshot, e) && frontier.Admits(e, reverse)
      ensures e == top.entry || Precedes(top.entry, e, reverse)
    {
      var l, i :| 0 <= l < |levels| && 0 <= i < |levels[l].points| && levels[l].points[i] == e && Live(levels, snapshot, l, i);
      assert Faces(pos[l], i, reverse);
      RootIsFirstAhead(levels, pos, items, reverse, l, i);
    }
  }

  lemma {:induction false} EmptyIsDone(
      levels: seq<Level>, snapshot: nat, pos: seq<int>, frontier: Frontier, reverse: bool)
    requires HeapOk(levels, pos, [], reverse) && NoneMissed(levels, snapshot, pos, frontier, reverse)
    ensures IsNext(levels, snapshot, frontier, reverse, None)
  {
    hide Live, Active;
    forall x ensures x !in Active(levels, pos) { assert x !in multiset(Active(levels, pos)); }
    forall e | IsLive(levels, snapshot, e) ensures !frontier.Admits(e, reverse) {
      var l, i :| 0 <= l < |levels| && 0 <= i < |levels[l].points| && levels[l].points[i] == e && Live(levels, snapshot, l, i);
      HasActive(levels, pos, l);
      assert !Faces(pos[l], i, reverse);
    }
  }

  lemma {:induction false} HasActive(levels: seq<Level>, pos: seq<int>, l: nat)
    requires |pos| == |levels| && l < |levels|
    ensures 0 <= pos[l] < |levels[l].points| ==> Item(l, levels[l].points[pos[l]]) in Active(levels, pos)
  {
  }

  // --- termination -----------------------------------------------------------

  ghost function EntriesFrom(levels: seq<Level>, e: Entry, reverse: bool): set<(int, int)> {
    set l, i | 0 <= l < |levels| && 0 <= i < |levels[l].points| && !Precedes(levels[l].points[i], e, reverse) :: (l, i)
  }

  /** How many entries do not come before `e`. */
  ghost function CountFrom(levels: seq<Level>, e: Entry, reverse: bool): nat {
    |EntriesFrom(levels, e, reverse)|
  }

  lemma {:induction false} CountPositive(levels: seq<Level>, pos: seq<int>, top: Item, reverse: bool)
    requires |pos| == |levels| && Stands(levels, pos, top)
    ensures CountFrom(levels, top.entry, reverse) > 0
  {
    assert (top.index, pos[top.index]) in EntriesFrom(levels, top.entry, reverse);
  }

  lemma {:induction false} CountLess(levels: seq<Level>, a: Entry, b: Entry, reverse: bool)
    requires Precedes(a, b, reverse) && exists l :: 0 <= l < |levels| && a in levels[l].points
    ensures CountFrom(levels, b, reverse) < CountFrom(levels, a, reverse)
  {
    var l :| 0 <= l < |levels| && a in levels[l].points;
    var i :| 0 <= i < |levels[l].points| && levels[l].points[i] == a;
    assert (l, i) in EntriesFrom(levels, a, reverse) && (l, i) !in EntriesFrom(levels, b, reverse);
    assert EntriesFrom(levels, b, reverse) < EntriesFrom(levels, a, reverse);
    SmallerSet(EntriesFrom(levels, b, reverse), EntriesFrom(levels, a, reverse));
  }

  lemma {:induction false} CountDecreases(levels: seq<Level>, pos: seq<int>, top: Item, items: seq<Item>, reverse: bool)
    requires HeapOk(levels, pos, items, reverse) && items != [] && AllAfter(levels, pos, top.entry, reverse)
    requires top.index < |levels| && top.entry in levels[top.index].points
    ensures CountFrom(levels, items[0].entry, reverse) < CountFrom(levels, top.entry, reverse)
  {
    hide CountFrom, Active, IsHeap;
    RootStands(levels, pos, items);
    assert Faces(pos[items[0].index], pos[items[0].index], reverse);
    CountLess(levels, top.entry, items[0].entry, reverse);
  }

  lemma {:induction false} SmallerSet<T>(a: set<T>, b: set<T>)
    requires a < b
    ensures |a| < |b|
  {
    assert b == a + (b - a);
    assert |b| == |a| + |b - a|;
    assert b - a != {};
  }

  // --- one step --------------------------------------------------------------

  /** What stepping the root does to the entries the levels stand at. */
  lemma {:induction false} StepActive(
      levels: seq<Level>, pos: seq<int>, items: seq<Item>, next: seq<int>, reverse: bool)
    requires |pos| == |levels| && items != [] && multiset(items) == multiset(Active(levels, pos))
    requires Stands(levels, pos, items[0]) && next == pos[items[0].index := Step(pos[items[0].index], reverse)]
    ensures var l := items[0].index;
            if 0 <= next[l] < |levels[l].points| then
              multiset(items[0 := Item(l, levels[l].points[next[l]])]) == multiset(Active(levels, next))
            else multiset(items) - multiset{items[0]} == multiset(Active(levels, next))
  {
    hide Active;
    var l := items[0].index;
    ActiveStands(levels, pos);
    ActiveStands(levels, next);
    if 0 <= next[l] < |levels[l].points| {
      var succ := Item(l, levels[l].points[next[l]]);
      SetReplace(Active(levels, pos), items[0], succ, Active(levels, next));
      assert items[0 := succ] == [succ] + items[1..] && items == [items[0]] + items[1..];
    } else {
      SetRemove(Active(levels, pos), items[0], Active(levels, next));
    }
  }

  lemma {:induction false} SetReplace<T>(a: set<T>, x: T, y: T, b: set<T>)
    requires x in a && (y == x || y !in a) && forall z :: z in b <==> z == y || (z in a && z != x)
    ensures multiset(b) == multiset(a) - multiset{x} + multiset{y}
  {
    assert b == (a - {x}) + {y};
  }

  lemma {:induction false} SetRemove<T>(a: set<T>, x: T, b: set<T>)
    requires x in a && forall z :: z in b <==> z in a && z != x
    ensures multiset(b) == multiset(a) - multiset{x}
  {
    assert b == a - {x};
  }

  /** Once the root is stepped, everything ahead comes after it. */
  lemma {:induction false} StepRoot(levels: seq<Level>, pos: seq<int>, items: seq<Item>, reverse: bool)
    requires LevelInvariant(levels) && HeapOk(levels, pos, items, reverse) && items != []
    ensures Stands(levels, pos, items[0])
    ensures InRange(levels, pos[items[0].index := Step(pos[items[0].index], reverse)], reverse)
    ensures AllAfter(levels, pos[items[0].index := Step(pos[items[0].index], reverse)], items[0].entry, reverse)
  {
    RootStands(levels, pos, items);
    var top := items[0];
    var next := pos[top.index := Step(pos[top.index], reverse)];
    forall m, i | 0 <= m < |levels| && 0 <= i < |levels[m].points| && Faces(next[m], i, reverse)
      ensures Precedes(top.entry, levels[m].points[i], reverse)
    {
      RootIsFirstAhead(levels, pos, items, reverse, m, i);
    }
  }

  lemma {:induction false} ReplaceRoot(items: seq<Item>, item: Item, reverse: bool)
    requires items != [] && IsHeap(items, reverse)
    ensures OkExcept(items[0 := item], reverse, 0, |items|, 0)
    ensures |items| == 1 ==> IsHeap(items[0 := item], reverse)
  {
    forall c | 0 < c < |items| && Parent(c) != 0 ensures Ok(items[0 := item], reverse, c) {
      assert Ok(items, reverse, c);
    }
  }

  /** Tombstones below the level of an entry are not newer than it. */
  lemma {:induction false} NoneBelow(levels: seq<Level>, snapshot: nat, item: Item)
    requires LevelInvariant(levels) && item.index < |levels| && item.entry in levels[item.index].points
    requires forall l :: 0 <= l <= item.index ==> !CoveredIn(levels, l, item.entry.key, item.entry.seqNum, snapshot)
    ensures forall l :: !CoveredIn(levels, l, item.entry.key, item.entry.seqNum, snapshot)
  {
  }

  /** Seeking past a tombstone above the root misses nothing. */
  lemma {:induction false} SoughtPast(levels: seq<Level>, snapshot: nat, before: seq<int>, items: seq<Item>, after: seq<int>,
                                      frontier: Frontier, level: nat, t: Tombstone, reverse: bool)
    requires LevelInvariant(levels) && HeapOk(levels, before, items, reverse) && items != [] && |after| == |levels|
    requires Ahead(levels, before, frontier, reverse) && NoneMissed(levels, snapshot, before, frontier, reverse)
    requires level < items[0].index < |levels|
    requires t in levels[level].tombs && Visible(t.seqNum, snapshot) && t.Contains(items[0].entry.key)
    requires forall l :: 0 <= l < items[0].index ==> after[l] == before[l]
    requires forall l :: items[0].index <= l < |levels| ==>
      Sought(levels, snapshot, l, after[l], Beyond(t, reverse), reverse)
    ensures Ahead(levels, after, frontier, reverse) && NoneMissed(levels, snapshot, after, frontier, reverse)
    ensures AllAfter(levels, after, items[0].entry, reverse)
  {
    hide IsHeap, Before, NewerAbove, Active, Live, HeapOk;
    var top := items[0];
    StepRoot(levels, before, items, reverse);
    assert Faces(before[top.index], before[top.index], reverse) && frontier.Admits(top.entry, reverse);
    forall l, i | 0 <= l < |levels| && 0 <= i < |levels[l].points| && Faces(after[l], i, reverse)
      ensures Precedes(top.entry, levels[l].points[i], reverse) && frontier.Admits(levels[l].points[i], reverse)
    {
      if l < top.index { RootIsFirstAhead(levels, before, items, reverse, l, i); }
      AdmitsLater(frontier, top.entry, levels[l].points[i], reverse);
    }
    forall l, i | 0 <= l < |levels| && 0 <= i < |levels[l].points| && !Faces(after[l], i, reverse)
      && frontier.Admits(levels[l].points[i], reverse)
      ensures !Live(levels, snapshot, l, i)
    {
      if l >= top.index && Faces(before[l], i, reverse) && !FromKey(Beyond(t, reverse)).Admits(levels[l].points[i], reverse) {
        RootIsFirstAhead(levels, before, items, reverse, l, i);
        DeadBelow(levels, snapshot, level, t, l, i);
      }
    }
  }

  lemma {:induction false} NoRange(levels: seq<Level>, snapshot: nat, level: int, key: Key, reverse: bool)
    ensures DeadRange(levels, snapshot, level, key, key, reverse)
  {
  }

  lemma {:induction false} FewerLevels(levels: seq<Level>, snapshot: nat, level: int, from: Key, to: Key, reverse: bool)
    requires DeadRange(levels, snapshot, level, from, to, reverse)
    ensures DeadRange(levels, snapshot, level + 1, from, to, reverse)
  {
  }

  ghost function ActiveBelow(levels: seq<Level>, pos: seq<int>, n: int): set<Item>
    requires |pos| == |levels| && n <= |levels|
  {
    set l | 0 <= l < n && 0 <= pos[l] < |levels[l].points| :: Item(l, levels[l].points[pos[l]])
  }

  lemma {:induction false} AllActive(levels: seq<Level>, pos: seq<int>)
    requires |pos| == |levels|
    ensures ActiveBelow(levels, pos, 0) == {} && ActiveBelow(levels, pos, |levels|) == Active(levels, pos)
    ensures forall x :: x in Active(levels, pos) ==> x.index < |levels|
  {
  }

  lemma {:induction false} ActiveStep(levels: seq<Level>, pos: seq<int>, n: int, items: seq<Item>)
    requires |pos| == |levels| && 0 <= n < |levels| && multiset(items) == multiset(ActiveBelow(levels, pos, n))
    ensures 0 <= pos[n] < |levels[n].points| ==>
      multiset(items + [Item(n, levels[n].points[pos[n]])]) == multiset(ActiveBelow(levels, pos, n + 1))
    ensures !(0 <= pos[n] < |levels[n].points|) ==> multiset(items) == multiset(ActiveBelow(levels, pos, n + 1))
  {
    var below := ActiveBelow(levels, pos, n);
    if 0 <= pos[n] < |levels[n].points| {
      var item := Item(n, levels[n].points[pos[n]]);
      assert item !in below && ActiveBelow(levels, pos, n + 1) == below + {item};
    } else {
      assert ActiveBelow(levels, pos, n + 1) == below;
    }
  }

  // --- a whole scan ------------------------------------------------------------

  /** Running the iterator forward is filtering and sorting: exactly the live entries from
      `start` on, in internal-key order. */
  method Scan(levels: seq<Level>, snapshot: nat, start: Option<Key>) returns (output: seq<Entry>)
    requires LevelInvariant(levels)
    ensures Sorted(output)
    ensures forall e :: e in output <==> IsLive(levels, snapshot, e) && (start.Some? ==> start.value <= e.key)
  {
    hide NewerAbove, IsLive, HeapOk, Live, CountFrom, IsNext, Collected;
    var iter := new Iterator(levels, snapshot);
    ghost var origin := if start.Some? then FromKey(start.value) else FromEnd;
    var next;
    if start.Some? { next := iter.Seek(start.value, false); } else { next := iter.FromTheEnd(false); }
    output := [];
    CollectStart(levels, snapshot, origin, next);
    while next.Some?
      invariant iter.Settled() && iter.levels == levels && iter.snapshot == snapshot && fresh(iter) && fresh(iter.heap)
      invariant iter.Position() == CursorAfter(next, false)
      invariant Sorted(output) && Collected(levels, snapshot, origin, output, next)
      decreases if next.Some? then CountFrom(levels, next.value, false) + 1 else 0
    {
      ghost var before, prev := output, next.value;
      output := output + [next.value];
      next := iter.Advance(false);
      CollectStep(levels, snapshot, origin, before, prev, next);
    }
    Complete(levels, snapshot, origin, output);
  }

  /** `output` holds what is live up to `next`, the next entry to collect. */
  ghost predicate Collected(
      levels: seq<Level>, snapshot: nat, origin: Frontier, output: seq<Entry>, next: Option<Entry>) {
    && (forall e :: e in output ==> IsLive(levels, snapshot, e) && origin.Admits(e, false))
    && (forall e :: IsLive(levels, snapshot, e) && origin.Admits(e, false) ==>
          e in output || (next.Some? && (e == next.value || Less(next.value, e))))
    && (next.Some? ==> IsLive(levels, snapshot, next.value) && origin.Admits(next.value, false))
    && (next.Some? ==> forall e :: e in output ==> Less(e, next.value))
  }

  lemma {:induction false} CollectStart(levels: seq<Level>, snapshot: nat, origin: Frontier, next: Option<Entry>)
    requires IsNext(levels, snapshot, origin, false, next)
    ensures Collected(levels, snapshot, origin, [], next)
  {
    hide IsLive;
  }

  lemma {:induction false} CollectStep(
      levels: seq<Level>, snapshot: nat, origin: Frontier, output: seq<Entry>, n: Entry, next: Option<Entry>)
    requires Sorted(output) && Collected(levels, snapshot, origin, output, Some(n))
    requires IsNext(levels, snapshot, Past(n), false, next)
    ensures Sorted(output + [n]) && Collected(levels, snapshot, origin, output + [n], next)
    ensures next.Some? ==> CountFrom(levels, next.value, false) < CountFrom(levels, n, false)
  {
    hide IsLive, CountFrom;
    if next.Some? {
      AdmitsLater(origin, n, next.value, false);
      IsInLevel(levels, snapshot, n);
      CountLess(levels, n, next.value, false);
      forall e | e in output ensures Less(e, next.value) { PrecedesTrans(e, n, next.value, false); }
    }
    forall e | IsLive(levels, snapshot, e) && origin.Admits(e, false)
      ensures e in output + [n] || (next.Some? && (e == next.value || Less(next.value, e)))
    {
      assert e in output || e == n || Precedes(n, e, false);
    }
  }

  lemma {:induction false} IsInLevel(levels: seq<Level>, snapshot: nat, e: Entry)
    requires IsLive(levels, snapshot, e)
    ensures exists l :: 0 <= l < |levels| && e in levels[l].points
  {
  }

  lemma {:induction false} Complete(levels: seq<Level>, snapshot: nat, origin: Frontier, output: seq<Entry>)
    requires Collected(levels, snapshot, origin, output, None)
    ensures forall e :: e in output <==> IsLive(levels, snapshot, e) && origin.Admits(e, false)
  {
    hide IsLive;
  }

  // --- every run ---------------------------------------------------------------

  datatype Op = First | Last | SeekGE(key: Key) | SeekLT(key: Key) | Next | Prev

  /** The live entries in internal-key order. */
  ghost predicate IsView(levels: seq<Level>, snapshot: nat, view: seq<Entry>) {
    Sorted(view) && forall e :: e in view <==> IsLive(levels, snapshot, e)
  }

  /** A place in a sequence: not chosen yet, or an index from -1 to its length. */
  datatype Place = Unplaced | Index(i: int)

  /** The cursor over a plain sequence. */
  function Move(view: seq<Entry>, op: Op, p: Place): Place
    requires Sorted(view)
  {
    match op
    case First => Index(0)
    case Last => Index(|view| - 1)
    case SeekGE(key) => Index(FirstGE(view, key, 0))
    case SeekLT(key) => Index(FirstGE(view, key, 0) - 1)
    case Next => if p.Unplaced? then Index(0) else if p.i < |view| then Index(p.i + 1) else p
    case Prev => if p.Unplaced? then Index(|view| - 1) else if p.i >= 0 then Index(p.i - 1) else p
  }

  function ItemAt(view: seq<Entry>, p: Place): Option<Entry> {
    if p.Index? && 0 <= p.i < |view| then Some(view[p.i]) else None
  }

  function Observe(view: seq<Entry>, ops: seq<Op>, p: Place): seq<Option<Entry>>
    requires Sorted(view)
  {
    if ops == [] then []
    else
      var q := Move(view, ops[0], p);
      [ItemAt(view, q)] + Observe(view, ops[1..], q)
  }

  /** The iterator is where the place says. */
  predicate Matches(view: seq<Entry>, c: Cursor, p: Place) {
    match c
    case Fresh => p == Unplaced
    case At(e) => p.Index? && 0 <= p.i < |view| && view[p.i] == e
    case Off(reverse) => p == Index(if reverse then -1 else |view|)
  }

  /** What is returned is what the view holds at the first index that the frontier admits. */
  lemma {:induction false} NextInView(
      levels: seq<Level>, snapshot: nat, view: seq<Entry>, frontier: Frontier, reverse: bool, result: Option<Entry>, n: int)
    requires IsView(levels, snapshot, view) && IsNext(levels, snapshot, frontier, reverse, result)
    requires RangeOk(view, n, reverse)
    requires forall i :: 0 <= i < |view| ==> (Faces(n, i, reverse) <==> frontier.Admits(view[i], reverse))
    ensures Matches(view, CursorAfter(result, reverse), Index(n)) && result == ItemAt(view, Index(n))
  {
    hide IsLive, Precedes, Sorted;
    assert Faces(n, n, reverse);
    match result
    case None =>
      assert forall i :: 0 <= i < |view| ==> view[i] in view;
      assert forall i :: 0 <= i < |view| ==> !Faces(n, i, reverse);
    case Some(r) =>
      assert r in view;
      var j :| 0 <= j < |view| && view[j] == r;
      assert Faces(n, j, reverse) && view[n] in view;
      InOrder(view, n, j, reverse);
  }

  lemma {:induction false} InOrder(view: seq<Entry>, i: int, j: int, reverse: bool)
    requires Sorted(view) && 0 <= i < |view| && 0 <= j < |view| && Faces(i, j, reverse)
    ensures i == j || (Precedes(view[i], view[j], reverse) && !Precedes(view[j], view[i], reverse) && view[i] != view[j])
  {
  }

  method Call(iter: Iterator, op: Op, ghost view: seq<Entry>, ghost p: Place) returns (result: Option<Entry>)
    requires iter.Settled() && IsView(iter.levels, iter.snapshot, view) && Matches(view, iter.Position(), p)
    modifies iter, iter.heap
    ensures iter.Settled() && Matches(view, iter.Position(), Move(view, op, p))
    ensures result == ItemAt(view, Move(view, op, p))
  {
    hide IsLive, LevelInvariant, HeapOk, IsNext, FirstGE, Ahead, NoneMissed, IsNearest, Faces, Precedes;
    ghost var c := iter.Position();
    ghost var q := Move(view, op, p);
    match op {
      case First =>
        result := iter.FromTheEnd(false);
        EndOf(view, q.i, false);
        NextInView(iter.levels, iter.snapshot, view, FromEnd, false, result, q.i);
      case Last =>
        result := iter.FromTheEnd(true);
        EndOf(view, q.i, true);
        NextInView(iter.levels, iter.snapshot, view, FromEnd, true, result, q.i);
      case SeekGE(key) =>
        result := iter.Seek(key, false);
        ghost var n := SeekPoint(view, key, false);
        NextInView(iter.levels, iter.snapshot, view, FromKey(key), false, result, n);
      case SeekLT(key) =>
        result := iter.Seek(key, true);
        ghost var n := SeekPoint(view, key, true);
        NextInView(iter.levels, iter.snapshot, view, FromKey(key), true, result, n);
      case Next =>
        result := iter.Advance(false);
        AdvanceInView(iter.levels, iter.snapshot, view, c, p, false, result);
      case Prev =>
        result := iter.Advance(true);
        AdvanceInView(iter.levels, iter.snapshot, view, c, p, true, result);
    }
  }

  lemma {:induction false} EndOf(view: seq<Entry>, n: int, reverse: bool)
    requires n == if reverse then |view| - 1 else 0
    ensures RangeOk(view, n, reverse)
    ensures forall i :: 0 <= i < |view| ==> Faces(n, i, reverse)
  {
  }

  lemma {:induction false} AdvanceInView(
      levels: seq<Level>, snapshot: nat, view: seq<Entry>, c: Cursor, p: Place, reverse: bool, result: Option<Entry>)
    requires IsView(levels, snapshot, view) && Matches(view, c, p)
    requires match c
             case At(e) => IsNext(levels, snapshot, Past(e), reverse, result)
             case Off(r) => if r == reverse then result == None else IsNext(levels, snapshot, FromEnd, reverse, result)
             case Fresh => IsNext(levels, snapshot, FromEnd, reverse, result)
    ensures var q := Move(view, if reverse then Prev else Next, p);
      Matches(view, CursorAfter(result, reverse), q) && result == ItemAt(view, q)
  {
    hide IsLive, IsNext;
    var q := Move(view, if reverse then Prev else Next, p);
    match c
    case At(e) =>
      assert Splits(view, q.i, e, reverse);
      NextInView(levels, snapshot, view, Past(e), reverse, result, q.i);
    case Off(r) =>
      if r != reverse { NextInView(levels, snapshot, view, FromEnd, reverse, result, q.i); }
    case Fresh =>
      NextInView(levels, snapshot, view, FromEnd, reverse, result, q.i);
  }

  /** Over every sequence of calls the iterator is a cursor over the live entries. */
  method Run(levels: seq<Level>, snapshot: nat, ops: seq<Op>, ghost view: seq<Entry>)
    returns (results: seq<Option<Entry>>)
    requires LevelInvariant(levels) && IsView(levels, snapshot, view)
    ensures results == Observe(view, ops, Unplaced)
  {
    hide IsLive, LevelInvariant, Move, ItemAt, IsView;
    assert Sorted(view) by { ViewSorted(levels, snapshot, view); }
    var iter := new Iterator(levels, snapshot);
    ghost var p := Unplaced;
    results := [];
    for n := 0 to |ops|
      invariant iter.Settled() && iter.levels == levels && iter.snapshot == snapshot && fresh(iter) && fresh(iter.heap)
      invariant Matches(view, iter.Position(), p)
      invariant results + Observe(view, ops[n..], p) == Observe(view, ops, Unplaced)
    {
      var result := Call(iter, ops[n], view, p);
      assert ops[n..][1..] == ops[n + 1..];
      p := Move(view, ops[n], p);
      assert results + ([result] + Observe(view, ops[n + 1..], p)) == results + [result] + Observe(view, ops[n + 1..], p);
      results := results + [result];
    }
  }

  lemma {:induction false} ViewSorted(levels: seq<Level>, snapshot: nat, view: seq<Entry>)
    requires IsView(levels, snapshot, view)
    ensures Sorted(view)
  {
  }
}
