/** get_iter.go: the versions of one key, level by level. */
module GetIter {
  import opened Wrappers
  import opened InternalKeys
  import opened MergingIter
  import opened RangeDel

  // --- the iterator -------------------------------------------------------------

  const NUM_LEVELS: nat := 7

  function Reverse(s: seq<Level>): (r: seq<Level>)
    ensures |r| == |s| && forall i :: 0 <= i < |s| ==> r[i] == s[|s| - 1 - i]
  {
    seq(|s|, i requires 0 <= i < |s| => s[|s| - 1 - i])
  }

  /** The levels a read consults, newest first: the batch, the memtables, the sublevels of L0, and L1 to L6.
      `mem` and `l0` list the newest last. */
  function Stack(batch: Option<Level>, mem: seq<Level>, l0: seq<Level>, rest: seq<Level>): seq<Level> {
    (match batch case None => [] case Some(b) => [b]) + Reverse(mem) + Reverse(l0) + rest
  }

  /** No tombstone of the levels before `l` that is seen contains `key`. */
  ghost predicate NoneAbove(levels: seq<Level>, key: Key, snapshot: nat, l: int) {
    forall m :: 0 <= m < l && m < |levels| ==> IsNewest(levels[m].tombs, key, snapshot, None)
  }

  /** The version `i` of level `l` is not one that the read counts. */
  ghost predicate Dead(levels: seq<Level>, key: Key, snapshot: nat, l: int, i: int)
    requires 0 <= l < |levels| && 0 <= i < |levels[l].points|
  {
    levels[l].points[i].key == key ==> !Live(levels, snapshot, l, i)
  }

  /** A place in the stack of levels: everything in the levels above, and what comes first in this one. */
  datatype Place = Place(level: int, index: int) {
    predicate After(l: int, i: int) {
      l < level || (l == level && i < index)
    }
    predicate AtMost(other: Place) {
      level < other.level || (level == other.level && index <= other.index)
    }
  }

  ghost predicate DeadBetween(levels: seq<Level>, key: Key, snapshot: nat, from: Place, to: Place) {
    forall l, i :: 0 <= l < |levels| && 0 <= i < |levels[l].points| && !from.After(l, i) && to.After(l, i)
      ==> Dead(levels, key, snapshot, l, i)
  }

  /** The entries before the first that reaches the key are of other keys. */
  lemma {:induction false} SeekIsDead(levels: seq<Level>, key: Key, snapshot: nat, from: Place, l: int, n: int)
    requires 0 <= l < |levels| && DeadBetween(levels, key, snapshot, from, Place(l, 0))
    requires forall i :: 0 <= i < n && i < |levels[l].points| ==> levels[l].points[i].key < key
    ensures DeadBetween(levels, key, snapshot, from, Place(l, n))
  {
    hide Live;
  }

  /** So are those from the first that passes it on. */
  lemma {:induction false} RestIsDead(levels: seq<Level>, key: Key, snapshot: nat, from: Place, l: int, n: int)
    requires LevelInvariant(levels) && 0 <= l < |levels| && 0 <= n <= |levels[l].points|
    requires DeadBetween(levels, key, snapshot, from, Place(l, n))
    requires n < |levels[l].points| ==> levels[l].points[n].key > key
    ensures DeadBetween(levels, key, snapshot, from, Place(l + 1, 0))
  {
    hide Live, NewerAbove;
    var points := levels[l].points;
    forall i | n <= i < |points| ensures Dead(levels, key, snapshot, l, i) {
      assert n < i ==> Less(points[n], points[i]);
    }
  }

  lemma {:induction false} StepIsDead(levels: seq<Level>, key: Key, snapshot: nat, from: Place, l: int, n: int)
    requires 0 <= l < |levels| && 0 <= n < |levels[l].points| && DeadBetween(levels, key, snapshot, from, Place(l, n))
    requires Dead(levels, key, snapshot, l, n)
    ensures DeadBetween(levels, key, snapshot, from, Place(l, n + 1))
  {
    hide Live;
  }

  /** A tombstone seen in level `m` that contains the key leaves nothing of it in the levels below. */
  lemma {:induction false} TombstoneEnds(levels: seq<Level>, key: Key, snapshot: nat, from: Place, m: int, t: Tombstone)
    requires LevelInvariant(levels) && 0 <= m < |levels| && t in levels[m].tombs && t.Contains(key)
    requires Visible(t.seqNum, snapshot)
    requires DeadBetween(levels, key, snapshot, from, Place(m + 1, 0))
    ensures DeadBetween(levels, key, snapshot, from, Place(|levels|, 0))
  {
    hide Live, NewerAbove;
    forall l, i | m < l < |levels| && 0 <= i < |levels[l].points| ensures Dead(levels, key, snapshot, l, i) {
      if levels[l].points[i].key == key { DeadBelow(levels, snapshot, m, t, l, i); }
    }
  }

  /** It deletes the versions of the key in its own level from an older one on. */
  lemma {:induction false} TombstoneDeletes(
      levels: seq<Level>, key: Key, snapshot: nat, from: Place, l: int, n: int, t: Tombstone)
    requires LevelInvariant(levels) && 0 <= l < |levels| && t in levels[l].tombs && t.Contains(key)
    requires Visible(t.seqNum, snapshot)
    requires 0 <= n < |levels[l].points| && levels[l].points[n].key >= key && levels[l].points[n].seqNum < t.seqNum
    requires DeadBetween(levels, key, snapshot, from, Place(l, n))
    ensures DeadBetween(levels, key, snapshot, from, Place(l + 1, 0))
  {
    hide NewerAbove;
    var points := levels[l].points;
    forall i | n <= i < |points| ensures Dead(levels, key, snapshot, l, i) {
      if points[i].key == key {
        assert n < i ==> Less(points[n], points[i]);
        assert CoveredIn(levels, l, key, points[i].seqNum, snapshot);
      }
    }
  }

  lemma {:induction false} TombstoneStops(
      levels: seq<Level>, key: Key, snapshot: nat, from: Place, l: int, n: int, t: Option<Tombstone>)
    requires LevelInvariant(levels) && 0 <= l < |levels| && IsNewest(levels[l].tombs, key, snapshot, t)
    requires 0 <= n < |levels[l].points| && levels[l].points[n].key >= key && t.Some?
    requires levels[l].points[n].seqNum < t.value.seqNum
    requires DeadBetween(levels, key, snapshot, from, Place(l, n))
    ensures DeadBetween(levels, key, snapshot, from, Place(l + 1, 0))
    ensures DeadBetween(levels, key, snapshot, from, Place(|levels|, 0))
  {
    hide LevelInvariant, DeadBetween;
    TombstoneDeletes(levels, key, snapshot, from, l, n, t.value);
    TombstoneEnds(levels, key, snapshot, from, l, t.value);
  }

  /** A version that no tombstone of its own level or above deletes is live. */
  lemma {:induction false} FoundIsLive(
      levels: seq<Level>, key: Key, snapshot: nat, l: int, n: int, t: Option<Tombstone>)
    requires LevelInvariant(levels) && 0 <= l < |levels| && 0 <= n < |levels[l].points|
    requires levels[l].points[n].key == key && Visible(levels[l].points[n].seqNum, snapshot)
    requires NoneAbove(levels, key, snapshot, l) && IsNewest(levels[l].tombs, key, snapshot, t)
    requires t.Some? ==> t.value.seqNum <= levels[l].points[n].seqNum
    ensures Live(levels, snapshot, l, n)
  {
    var e := levels[l].points[n];
    assert e in levels[l].points;
    forall m ensures !CoveredIn(levels, m, key, e.seqNum, snapshot) {
      assert 0 <= m < l ==> IsNewest(levels[m].tombs, key, snapshot, None);
    }
  }

  /** The levels still to be begun. */
  ghost predicate Unread(
      levels: seq<Level>, begun: nat, batch: Option<Level>, mem: seq<Level>, l0: seq<Level>, level: nat,
      version: seq<Level>)
    ensures Unread(levels, begun, batch, mem, l0, level, version) ==>
      begun <= |levels| && |version| == NUM_LEVELS && level <= NUM_LEVELS && (begun > 0 ==> batch == None)
    ensures Unread(levels, begun, batch, mem, l0, level, version) && level > 0 ==>
      batch == None && mem == [] && l0 == []
  {
    && |version| == NUM_LEVELS && level <= NUM_LEVELS && begun <= |levels|
    && (begun > 0 ==> batch == None) && (level > 0 ==> batch == None && mem == [] && l0 == [])
    && levels[begun..] == Stack(batch, mem, l0, version[if level == 0 then 1 else level..])
  }

  lemma {:induction false} ReverseTop(s: seq<Level>, rest: seq<Level>)
    requires |s| > 0
    ensures Reverse(s) + rest == [s[|s| - 1]] + (Reverse(s[..|s| - 1]) + rest)
  {
    assert Reverse(s) == [s[|s| - 1]] + Reverse(s[..|s| - 1]);
  }

  lemma {:induction false} StackIs(mem: seq<Level>, l0: seq<Level>, rest: seq<Level>)
    ensures Stack(None, mem, l0, rest) == Reverse(mem) + (Reverse(l0) + rest)
    ensures Stack(None, [], l0, rest) == Reverse(l0) + rest && Stack(None, [], [], rest) == rest
  {
    assert Reverse([]) == [];
  }

  lemma {:induction false} StackTop(batch: Option<Level>, mem: seq<Level>, l0: seq<Level>, rest: seq<Level>)
    ensures batch.Some? ==> Stack(batch, mem, l0, rest) == [batch.value] + Stack(None, mem, l0, rest)
    ensures |mem| > 0 ==> Stack(None, mem, l0, rest) == [mem[|mem| - 1]] + Stack(None, mem[..|mem| - 1], l0, rest)
    ensures |l0| > 0 ==> Stack(None, [], l0, rest) == [l0[|l0| - 1]] + Stack(None, [], l0[..|l0| - 1], rest)
    ensures Stack(None, [], [], rest) == rest
  {
    StackIs(mem, l0, rest);
    if batch.Some? { BatchOnTop(batch.value, mem, l0, rest); }
    hide Stack, Reverse;
    if |mem| > 0 {
      ReverseTop(mem, Reverse(l0) + rest);
      StackIs(mem[..|mem| - 1], l0, rest);
    }
    if |l0| > 0 {
      ReverseTop(l0, rest);
      StackIs([], l0[..|l0| - 1], rest);
    }
  }

  lemma {:induction false} BatchOnTop(batch: Level, mem: seq<Level>, l0: seq<Level>, rest: seq<Level>)
    ensures Stack(Some(batch), mem, l0, rest) == [batch] + Stack(None, mem, l0, rest)
  {
    hide Reverse;
  }

  lemma {:induction false} UnreadPop(levels: seq<Level>, n: nat, rest: seq<Level>, first: Level, more: seq<Level>)
    requires n <= |levels| && levels[n..] == rest == [first] + more
    ensures n < |levels| && levels[n] == first && levels[n + 1..] == more
  {
    assert levels[n + 1..] == levels[n..][1..];
  }

  /** What each kind of level leaves when it is begun. */
  lemma {:induction false} UnreadNext(
      levels: seq<Level>, n: nat, batch: Option<Level>, mem: seq<Level>, l0: seq<Level>, level: nat,
      version: seq<Level>)
    requires Unread(levels, n, batch, mem, l0, level, version)
    ensures batch.Some? ==>
      n < |levels| && levels[n] == batch.value && Unread(levels, n + 1, None, mem, l0, level, version)
    ensures batch == None && |mem| > 0 ==>
      n < |levels| && levels[n] == mem[|mem| - 1] && Unread(levels, n + 1, None, mem[..|mem| - 1], l0, level, version)
    ensures batch == None && mem == [] && level == 0 && |l0| > 0 ==>
      n < |levels| && levels[n] == l0[|l0| - 1] && Unread(levels, n + 1, None, [], l0[..|l0| - 1], level, version)
    ensures batch == None && mem == [] && l0 == [] ==>
      var k := if level == 0 then 1 else level;
      if k >= NUM_LEVELS then n == |levels|
      else |version| == NUM_LEVELS && n < |levels| && levels[n] == version[k] && Unread(levels, n + 1, None, [], [], k + 1, version)
  {
    hide Stack;
    var rest := version[if level == 0 then 1 else level..];
    StackTop(batch, mem, l0, rest);
    if batch.Some? {
      UnreadPop(levels, n, Stack(batch, mem, l0, rest), batch.value, Stack(None, mem, l0, rest));
    } else if |mem| > 0 {
      UnreadPop(levels, n, Stack(batch, mem, l0, rest), mem[|mem| - 1], Stack(None, mem[..|mem| - 1], l0, rest));
    } else if |l0| > 0 {
      UnreadPop(levels, n, Stack(batch, mem, l0, rest), l0[|l0| - 1], Stack(None, [], l0[..|l0| - 1], rest));
    } else if rest != [] {
      UnreadPop(levels, n, rest, rest[0], rest[1..]);
      StackTop(None, [], [], rest[1..]);
    }
  }

  class GetIterator {
    const key: Key
    const snapshot: nat
    const version: seq<Level>        // version[0] is L0, which is read through l0
    var batch: Option<Level>
    var mem: seq<Level>
    var l0: seq<Level>
    var level: nat
    var iter: Option<seq<Entry>>     // the points of the level being read
    var index: nat
    var rangeDel: Option<seq<Tombstone>>
    var tombstone: Option<Tombstone>
    ghost const levels: seq<Level>
    ghost var begun: nat             // how many of `levels` have been begun

    ghost predicate Static() {
      |version| == NUM_LEVELS && LevelInvariant(levels)
    }

    ghost predicate Valid()
      reads this
    {
      && Static() && Unread(levels, begun, batch, mem, l0, level, version)
      && if iter.Some? then Reading() else Between()
    }

    /** At an entry of the level begun last. */
    ghost predicate Reading()
      reads this
    {
      && 0 < begun <= |levels| && iter.Some? && iter.value == levels[begun - 1].points && index <= |iter.value|
      && (forall i :: index <= i < |iter.value| ==> iter.value[i].key >= key)
      && NoneAbove(levels, key, snapshot, begun - 1)
      && if rangeDel.Some? then tombstone == None && rangeDel.value == levels[begun - 1].tombs
         else IsNewest(levels[begun - 1].tombs, key, snapshot, tombstone)
    }

    /** Done with the levels begun so far. */
    ghost predicate Between()
      reads this
    {
      && iter == None && rangeDel == None
      && if tombstone == None then NoneAbove(levels, key, snapshot, begun)
         else 0 < begun <= |levels| && IsNewest(levels[begun - 1].tombs, key, snapshot, tombstone)
    }

    ghost function Reached(): Place
      reads this
    {
      if iter.Some? then Place(begun - 1, index) else Place(begun, 0)
    }

    constructor (key: Key, snapshot: nat, batch: Option<Level>, mem: seq<Level>, l0: seq<Level>, version: seq<Level>)
      requires |version| == NUM_LEVELS
      requires LevelInvariant(Stack(batch, mem, l0, version[1..]))
      ensures Valid() && this.key == key && this.snapshot == snapshot && levels == Stack(batch, mem, l0, version[1..])
      ensures Reached() == Place(0, 0)
      ensures iter == None
    {
      this.key, this.snapshot, this.version := key, snapshot, version;
      this.batch, this.mem, this.l0, level := batch, mem, l0, 0;
      iter, index, rangeDel, tombstone := None, 0, None, None;
      levels, begun := Stack(batch, mem, l0, version[1..]), 0;
    }

    /** Starts on the next level and seeks its point iterator to the key. */
    method Begin(l: Level)
      requires Static() && Between() && tombstone == None && begun < |levels| && l == levels[begun]
      modifies this`iter, this`index, this`rangeDel, this`begun
      ensures Reading() && begun == old(begun) + 1
      ensures forall from :: DeadBetween(levels, key, snapshot, from, Place(begun - 1, 0)) ==>
        DeadBetween(levels, key, snapshot, from, Reached())
    {
      hide NewerAbove, Live, DeadBetween;
      iter := Some(l.points);
      rangeDel := if l.tombs == [] then None else Some(l.tombs);
      index := FirstGE(l.points, key, 0);
      begun := begun + 1;
      forall from | DeadBetween(levels, key, snapshot, from, Place(begun - 1, 0)) ensures DeadBetween(levels, key, snapshot, from, Reached()) {
        SeekIsDead(levels, key, snapshot, from, begun - 1, index);
      }
    }

    /** Finds the level's tombstone for the key, once. */
    method LoadTombstone()
      requires Valid() && iter.Some?
      modifies this`rangeDel, this`tombstone
      ensures Valid() && rangeDel == None
    {
      hide LevelInvariant, OneOrigin, Fragmented, Unread, NoneAbove, IsNewest;
      LevelFacts(levels, begun - 1);
      if rangeDel.Some? {
        tombstone := RangeDel.Get(rangeDel.value, key, snapshot);
        rangeDel := None;
      }
    }

    /** Looks for a version of the key in the level being read. */
    method InLevel(ghost from: Place) returns (stop: bool, r: Option<Entry>)
      requires Valid() && iter.Some? && DeadBetween(levels, key, snapshot, from, Reached())
      modifies this`iter, this`index, this`rangeDel, this`tombstone
      ensures Valid() && DeadBetween(levels, key, snapshot, from, Reached())
      ensures r.Some? ==> stop && Found(r.value) && index >= old(index)
      ensures r == None ==> iter == None
      ensures stop && r == None ==> DeadBetween(levels, key, snapshot, from, Place(|levels|, 0))
    {
      hide LevelInvariant, OneOrigin, Fragmented, Live, DeadBetween, Unread, NoneAbove, IsNewest;
      LoadTombstone();
      while index < |iter.value|
        invariant Valid() && iter == old(iter) && index >= old(index) && rangeDel == None
        invariant DeadBetween(levels, key, snapshot, from, Reached())
      {
        var e := iter.value[index];
        if tombstone.Some? && tombstone.value.seqNum > e.seqNum {
          TombstoneStops(levels, key, snapshot, from, begun - 1, index, tombstone);
          iter := None;
          return true, None;
        }
        if e.key != key { break; }
        if Visible(e.seqNum, snapshot) {
          FoundIsLive(levels, key, snapshot, begun - 1, index, tombstone);
          return true, Some(e);
        }
        InvisibleIsDead(levels, key, snapshot, begun - 1, index);
        StepIsDead(levels, key, snapshot, from, begun - 1, index);
        index := index + 1;
      }
      RestIsDead(levels, key, snapshot, from, begun - 1, index);
      NoneAboveNext(levels, key, snapshot, begun - 1, tombstone);
      iter := None;
      return false, None;
    }

    /** Begins the next level, unless there is none or a tombstone has deleted the rest. */
    method NextLevel(ghost from: Place) returns (stop: bool)
      requires Valid() && iter == None && DeadBetween(levels, key, snapshot, from, Reached())
      modifies this
      ensures Valid() && DeadBetween(levels, key, snapshot, from, Reached())
      ensures stop ==> iter == None && DeadBetween(levels, key, snapshot, from, Place(|levels|, 0))
      ensures !stop ==> begun == old(begun) + 1
    {
      hide LevelInvariant, Live, DeadBetween, NoneAbove, IsNewest, Unread;
      UnreadNext(levels, begun, batch, mem, l0, level, version);
      if tombstone.Some? {
        NewestIs(levels[begun - 1].tombs, key, snapshot, tombstone);
        TombstoneEnds(levels, key, snapshot, from, begun - 1, tombstone.value);
      }
      if batch.Some? {
        var l := batch.value;
        batch := None;
        Begin(l);
        return false;
      }
      if tombstone.Some? { return true; }
      if |mem| > 0 {
        var l := mem[|mem| - 1];
        mem := mem[..|mem| - 1];
        Begin(l);
        return false;
      }
      if level == 0 {
        if |l0| > 0 {
          var l := l0[|l0| - 1];
          l0 := l0[..|l0| - 1];
          Begin(l);
          return false;
        }
        level := level + 1;
      }
      if level >= NUM_LEVELS { return true; }
      var l := version[level];
      level := level + 1;
      if l == Level([], []) {
        SkipEmpty(levels, key, snapshot, from, begun);
        begun := begun + 1;
      } else {
        Begin(l);
      }
      return false;
    }

    /** Where the search goes on after the entry returned last. */
    ghost function Resume(): Place
      reads this
    {
      if iter.Some? then Place(begun - 1, index + 1) else Place(begun, 0)
    }

    /** The next version of the key that the read counts: none is skipped. */
    method Next() returns (r: Option<Entry>)
      requires Valid()
      modifies this
      ensures Valid() && DeadBetween(levels, key, snapshot, old(Resume()), Reached())
      ensures r.Some? ==> Found(r.value) && old(Resume()).AtMost(Reached())
      ensures r == None ==> DeadBetween(levels, key, snapshot, old(Resume()), Place(|levels|, 0))
    {
      hide LevelInvariant, Live, DeadBetween, NoneAbove, IsNewest;
      ghost var from := Resume();
      if iter.Some? && index < |iter.value| { index := index + 1; }
      NothingBetween(levels, key, snapshot, from, Reached());
      while true
        invariant Valid() && DeadBetween(levels, key, snapshot, from, Reached())
        invariant from.AtMost(Reached()) || (iter.Some? && from == Place(begun - 1, index + 1) && index == |iter.value|)
        decreases |levels| - begun
      {
        var stop: bool;
        if iter.Some? {
          stop, r := InLevel(from);
          if stop { return; }
        }
        stop := NextLevel(from);
        if stop { return None; }
      }
    }

    ghost predicate Found(e: Entry)
      reads this
    {
      && 0 < begun <= |levels| && iter.Some? && index < |levels[begun - 1].points|
      && levels[begun - 1].points[index] == e && e.key == key && Live(levels, snapshot, begun - 1, index)
    }
  }

  lemma {:induction false} LevelFacts(levels: seq<Level>, l: int)
    requires LevelInvariant(levels) && 0 <= l < |levels|
    ensures Sorted(levels[l].points) && Fragmented(levels[l].tombs) && OneOrigin(levels[l].tombs)
  {
  }

  lemma {:induction false} SkipEmpty(levels: seq<Level>, key: Key, snapshot: nat, from: Place, l: int)
    requires 0 <= l < |levels| && levels[l] == Level([], []) && NoneAbove(levels, key, snapshot, l)
    requires DeadBetween(levels, key, snapshot, from, Place(l, 0))
    ensures NoneAbove(levels, key, snapshot, l + 1) && DeadBetween(levels, key, snapshot, from, Place(l + 1, 0))
  {
    hide Live;
  }

  lemma {:induction false} NothingBetween(levels: seq<Level>, key: Key, snapshot: nat, from: Place, to: Place)
    requires from.level == to.level && from.index >= to.index
    ensures DeadBetween(levels, key, snapshot, from, to)
  {
  }

  lemma {:induction false} NewestIs(tombs: seq<Tombstone>, key: Key, snapshot: nat, found: Option<Tombstone>)
    requires IsNewest(tombs, key, snapshot, found) && found.Some?
    ensures found.value in tombs && found.value.Contains(key) && Visible(found.value.seqNum, snapshot)
  {
  }

  lemma {:induction false} InvisibleIsDead(levels: seq<Level>, key: Key, snapshot: nat, l: int, n: int)
    requires 0 <= l < |levels| && 0 <= n < |levels[l].points| && !Visible(levels[l].points[n].seqNum, snapshot)
    ensures Dead(levels, key, snapshot, l, n)
  {
  }

  lemma {:induction false} NoneAboveNext(levels: seq<Level>, key: Key, snapshot: nat, l: int, t: Option<Tombstone>)
    requires 0 <= l < |levels| && NoneAbove(levels, key, snapshot, l) && IsNewest(levels[l].tombs, key, snapshot, t)
    ensures t == None ==> NoneAbove(levels, key, snapshot, l + 1)
  {
  }

  // --- a whole get ------------------------------------------------------------------

  /** A version of `key` that a read at `snapshot` counts. */
  ghost predicate IsVersion(levels: seq<Level>, key: Key, snapshot: nat, e: Entry) {
    e.key == key && IsLive(levels, snapshot, e)
  }

  /** `output` holds what is counted before `place`, newest first. */
  ghost predicate Gathered(levels: seq<Level>, key: Key, snapshot: nat, output: seq<Entry>, place: Place) {
    && Sorted(output)
    && (forall e :: e in output ==> IsVersion(levels, key, snapshot, e) && Precedes(levels, e, place))
    && (forall l, i :: 0 <= l < |levels| && 0 <= i < |levels[l].points| && place.After(l, i)
          ==> Dead(levels, key, snapshot, l, i) || levels[l].points[i] in output)
  }

  ghost predicate Precedes(levels: seq<Level>, e: Entry, place: Place) {
    exists l, i :: 0 <= l < |levels| && 0 <= i < |levels[l].points| && levels[l].points[i] == e && place.After(l, i)
  }

  lemma {:induction false} GatherMore(
      levels: seq<Level>, key: Key, snapshot: nat, output: seq<Entry>, from: Place, to: Place)
    requires Gathered(levels, key, snapshot, output, from) && DeadBetween(levels, key, snapshot, from, to)
    requires from.AtMost(to)
    ensures Gathered(levels, key, snapshot, output, to)
  {
    hide Live, IsVersion, Sorted;
    forall e | e in output ensures Precedes(levels, e, to) {
      assert Precedes(levels, e, from);
      var l, i :| 0 <= l < |levels| && 0 <= i < |levels[l].points| && levels[l].points[i] == e && from.After(l, i);
      assert to.After(l, i);
    }
  }

  /** Versions of one key come newest first down the stack. */
  lemma {:induction false} NewerFirst(levels: seq<Level>, m: int, i: int, l: int, n: int)
    requires LevelInvariant(levels) && 0 <= m < |levels| && 0 <= i < |levels[m].points|
    requires 0 <= l < |levels| && 0 <= n < |levels[l].points| && Place(l, n).After(m, i)
    requires levels[m].points[i].key == levels[l].points[n].key
    ensures Less(levels[m].points[i], levels[l].points[n])
  {
    assert levels[m].points[i] in levels[m].points && levels[l].points[n] in levels[l].points;
  }

  lemma {:induction false} GatherOne(levels: seq<Level>, key: Key, snapshot: nat, output: seq<Entry>, l: int, n: int)
    requires LevelInvariant(levels) && Gathered(levels, key, snapshot, output, Place(l, n))
    requires 0 <= l < |levels| && 0 <= n < |levels[l].points| && levels[l].points[n].key == key
    requires Live(levels, snapshot, l, n)
    ensures Gathered(levels, key, snapshot, output + [levels[l].points[n]], Place(l, n + 1))
  {
    hide Live, LevelInvariant, Less;
    var e := levels[l].points[n];
    forall a | a in output ensures Less(a, e) && Precedes(levels, a, Place(l, n + 1)) {
      assert Precedes(levels, a, Place(l, n));
      var m, i :| 0 <= m < |levels| && 0 <= i < |levels[m].points| && levels[m].points[i] == a && Place(l, n).After(m, i);
      assert Place(l, n + 1).After(m, i);
      NewerFirst(levels, m, i, l, n);
    }
    assert IsVersion(levels, key, snapshot, e);
    assert Place(l, n + 1).After(l, n);
  }

  /** Get sees exactly the versions of the key that the merged view of all levels shows, newest first. */
  method Versions(key: Key, snapshot: nat, batch: Option<Level>, mem: seq<Level>, l0: seq<Level>, version: seq<Level>)
    returns (output: seq<Entry>)
    requires |version| == NUM_LEVELS
    requires LevelInvariant(Stack(batch, mem, l0, version[1..]))
    ensures Sorted(output)
    ensures forall e :: e in output <==> IsVersion(Stack(batch, mem, l0, version[1..]), key, snapshot, e)
  {
    hide LevelInvariant, Live, DeadBetween, Gathered, IsVersion, Unread, IsNewest, NoneAbove, Stack;
    var iter := new GetIterator(key, snapshot, batch, mem, l0, version);
    ghost var levels := iter.levels;
    output := [];
    GatherNone(levels, key, snapshot);
    var r := iter.Next();
    GatherMore(levels, key, snapshot, output, Place(0, 0), if r == None then Place(|levels|, 0) else iter.Reached());
    while r.Some?
      invariant fresh(iter) && iter.Valid() && iter.levels == levels && iter.key == key && iter.snapshot == snapshot
      invariant r.Some? ==> iter.Found(r.value) && Gathered(levels, key, snapshot, output, iter.Reached())
      invariant r == None ==> Gathered(levels, key, snapshot, output, Place(|levels|, 0))
      decreases if r.Some? then 1 + |levels| - iter.begun else 0, if r.Some? then |levels[iter.begun - 1].points| - iter.index else 0
    {
      GatherOne(levels, key, snapshot, output, iter.begun - 1, iter.index);
      output := output + [r.value];
      ghost var from := iter.Resume();
      r := iter.Next();
      GatherMore(levels, key, snapshot, output, from, if r == None then Place(|levels|, 0) else iter.Reached());
    }
    GatherAll(levels, key, snapshot, output);
  }

  lemma {:induction false} GatherNone(levels: seq<Level>, key: Key, snapshot: nat)
    ensures Gathered(levels, key, snapshot, [], Place(0, 0))
  {
  }

  lemma {:induction false} GatherAll(levels: seq<Level>, key: Key, snapshot: nat, output: seq<Entry>)
    requires Gathered(levels, key, snapshot, output, Place(|levels|, 0))
    ensures Sorted(output)
    ensures forall e :: e in output <==> IsVersion(levels, key, snapshot, e)
  {
    forall e | IsVersion(levels, key, snapshot, e) ensures e in output {
      var l, i :| 0 <= l < |levels| && 0 <= i < |levels[l].points| && levels[l].points[i] == e && Live(levels, snapshot, l, i);
      assert Place(|levels|, 0).After(l, i);
    }
  }
}
