/** The read path as a whole: iterators and gets over the levels of the store read what the
    entries and tombstones of all levels mean. */
module ReadPath {
  import opened Wrappers
  import opened InternalKeys
  import opened MergingIter
  import opened RangeDel
  import opened GetIter
  import I = InternalIter
  import DB = DbIterator

  // --- the meaning of a stack of levels ------------------------------------------------

  function AllPoints(levels: seq<Level>): seq<Entry> {
    if levels == [] then [] else levels[0].points + AllPoints(levels[1..])
  }

  function AllTombs(levels: seq<Level>): seq<Tombstone> {
    if levels == [] then [] else levels[0].tombs + AllTombs(levels[1..])
  }

  /** The value of `key` at `snapshot`, by definition. */
  ghost function Meaning(levels: seq<Level>, merge: Merger, key: Key, snapshot: nat): Option<Value> {
    Read(AllPoints(levels), AllTombs(levels), merge, key, snapshot, None)
  }

  /** The versions that a read counts. */
  function Counting(es: seq<Entry>, tombs: seq<Tombstone>, key: Key, snapshot: nat): (r: seq<Entry>)
    ensures forall e :: e in r <==> e in es && Counts(e, tombs, key, snapshot)
  {
    if es == [] then []
    else if Counts(es[0], tombs, key, snapshot) then [es[0]] + Counting(es[1..], tombs, key, snapshot)
    else Counting(es[1..], tombs, key, snapshot)
  }

  lemma {:induction false} ReadIsLookup(es: seq<Entry>, tombs: seq<Tombstone>, merge: Merger, key: Key, snapshot: nat)
    ensures Read(es, tombs, merge, key, snapshot, None) == DB.Lookup(Counting(es, tombs, key, snapshot), merge, key)
  {
    hide Covered;
    if es != [] {
      ReadIsLookup(es[1..], tombs, merge, key, snapshot);
      var rest := Counting(es[1..], tombs, key, snapshot);
      assert ([es[0]] + rest)[1..] == rest;
    }
  }

  lemma {:induction false} CountingAppend(a: seq<Entry>, b: seq<Entry>, tombs: seq<Tombstone>, key: Key, snapshot: nat)
    ensures Counting(a + b, tombs, key, snapshot) == Counting(a, tombs, key, snapshot) + Counting(b, tombs, key, snapshot)
  {
    hide Counts;
    if a == [] {
      assert a + b == b;
    } else {
      assert (a + b)[1..] == a[1..] + b;
      CountingAppend(a[1..], b, tombs, key, snapshot);
    }
  }

  lemma {:induction false} CountingSorted(es: seq<Entry>, tombs: seq<Tombstone>, key: Key, snapshot: nat)
    requires Sorted(es)
    ensures Sorted(Counting(es, tombs, key, snapshot))
  {
    hide Counts, Less;
    if es != [] {
      CountingSorted(es[1..], tombs, key, snapshot);
      var rest := Counting(es[1..], tombs, key, snapshot);
      assert forall y :: y in rest ==> y in es[1..] && Less(es[0], y);
      SortedAppend([es[0]], rest);
    }
  }

  lemma {:induction false} AllTombsAre(levels: seq<Level>, t: Tombstone)
    ensures t in AllTombs(levels) <==> exists l :: 0 <= l < |levels| && t in levels[l].tombs
  {
    if levels != [] {
      AllTombsAre(levels[1..], t);
      if t in AllTombs(levels[1..]) {
        var l :| 0 <= l < |levels| - 1 && t in levels[1..][l].tombs;
        assert t in levels[l + 1].tombs;
      }
      if exists l :: 0 <= l < |levels| && t in levels[l].tombs {
        var l :| 0 <= l < |levels| && t in levels[l].tombs;
        assert l > 0 ==> t in levels[1..][l - 1].tombs;
      }
    }
  }

  lemma {:induction false} AllPointsAre(levels: seq<Level>, e: Entry)
    ensures e in AllPoints(levels) <==> exists l :: 0 <= l < |levels| && e in levels[l].points
  {
    if levels != [] {
      AllPointsAre(levels[1..], e);
      if e in AllPoints(levels[1..]) {
        var l :| 0 <= l < |levels| - 1 && e in levels[1..][l].points;
        assert e in levels[l + 1].points;
      }
      if exists l :: 0 <= l < |levels| && e in levels[l].points {
        var l :| 0 <= l < |levels| && e in levels[l].points;
        assert l > 0 ==> e in levels[1..][l - 1].points;
      }
    }
  }

  lemma {:induction false} CoveredSomewhere(levels: seq<Level>, key: Key, seqNum: nat, snapshot: nat)
    ensures Covered(AllTombs(levels), key, seqNum, snapshot) <==> exists m :: CoveredIn(levels, m, key, seqNum, snapshot)
  {
    if Covered(AllTombs(levels), key, seqNum, snapshot) {
      var t :| t in AllTombs(levels) && t.Contains(key) && t.seqNum > seqNum && Visible(t.seqNum, snapshot);
      AllTombsAre(levels, t);
      var m :| 0 <= m < |levels| && t in levels[m].tombs;
      assert CoveredIn(levels, m, key, seqNum, snapshot);
    }
    if m :| CoveredIn(levels, m, key, seqNum, snapshot) {
      var t :| t in levels[m].tombs && t.Contains(key) && t.seqNum > seqNum && Visible(t.seqNum, snapshot);
      AllTombsAre(levels, t);
    }
  }

  /** The versions that count are the live entries of the key. */
  lemma {:induction false} CountingIsLive(levels: seq<Level>, key: Key, snapshot: nat, e: Entry)
    ensures e in AllPoints(levels) && Counts(e, AllTombs(levels), key, snapshot) <==> IsVersion(levels, key, snapshot, e)
  {
    AllPointsAre(levels, e);
    CoveredSomewhere(levels, key, e.seqNum, snapshot);
    hide Covered, CoveredIn;
    if e in AllPoints(levels) && Counts(e, AllTombs(levels), key, snapshot) {
      var l :| 0 <= l < |levels| && e in levels[l].points;
      var i :| 0 <= i < |levels[l].points| && levels[l].points[i] == e;
      assert Live(levels, snapshot, l, i);
    }
    if IsLive(levels, snapshot, e) {
      var l, i :| 0 <= l < |levels| && 0 <= i < |levels[l].points| && levels[l].points[i] == e && Live(levels, snapshot, l, i);
      assert e in levels[l].points;
    }
  }

  /** Down the stack, the versions of a key go from newer to older. */
  lemma {:induction false} StackSorted(levels: seq<Level>, tombs: seq<Tombstone>, key: Key, snapshot: nat)
    requires LevelInvariant(levels)
    ensures Sorted(Counting(AllPoints(levels), tombs, key, snapshot))
  {
    hide Counts, LevelInvariant, Less;
    if levels != [] {
      var a, b := levels[0].points, AllPoints(levels[1..]);
      InvariantBelow(levels);
      StackSorted(levels[1..], tombs, key, snapshot);
      CountingAppend(a, b, tombs, key, snapshot);
      CountingSorted(a, tombs, key, snapshot);
      var ca, cb := Counting(a, tombs, key, snapshot), Counting(b, tombs, key, snapshot);
      forall x, y | x in ca && y in cb ensures Less(x, y) {
        CountsKey(x, tombs, key, snapshot);
        CountsKey(y, tombs, key, snapshot);
        AllPointsAre(levels[1..], y);
        var l :| 0 <= l < |levels| - 1 && y in levels[1..][l].points;
        NewerPoint(levels, 0, l + 1, x, y);
      }
      SortedAppend(ca, cb);
    }
  }

  lemma {:induction false} CountsKey(e: Entry, tombs: seq<Tombstone>, key: Key, snapshot: nat)
    requires Counts(e, tombs, key, snapshot)
    ensures e.key == key
  {
  }

  lemma {:induction false} NewerPoint(levels: seq<Level>, a: int, b: int, x: Entry, y: Entry)
    requires LevelInvariant(levels) && 0 <= a < b < |levels| && x in levels[a].points && y in levels[b].points
    requires x.key == y.key
    ensures Less(x, y)
  {
  }

  lemma {:induction false} SortedAppend(a: seq<Entry>, b: seq<Entry>)
    requires Sorted(a) && Sorted(b) && forall x, y :: x in a && y in b ==> Less(x, y)
    ensures Sorted(a + b)
  {
    hide Less;
  }

  lemma {:induction false} InvariantBelow(levels: seq<Level>)
    requires LevelInvariant(levels) && levels != []
    ensures LevelInvariant(levels[1..]) && Sorted(levels[0].points)
  {
    var below := levels[1..];
    assert forall l :: 0 <= l < |below| ==> below[l] == levels[l + 1];
  }

  // --- what a read must see ---------------------------------------------------------------

  function OfKey(es: seq<Entry>, key: Key): (r: seq<Entry>)
    ensures forall e :: e in r <==> e in es && e.key == key
  {
    if es == [] then [] else (if es[0].key == key then [es[0]] else []) + OfKey(es[1..], key)
  }

  lemma {:induction false} LookupOfKey(es: seq<Entry>, merge: Merger, key: Key)
    ensures DB.Lookup(es, merge, key) == DB.Lookup(OfKey(es, key), merge, key)
  {
    if es != [] {
      LookupOfKey(es[1..], merge, key);
      var rest := OfKey(es[1..], key);
      assert ([es[0]] + rest)[1..] == rest && [] + rest == rest;
    }
  }

  lemma {:induction false} OfKeySorted(es: seq<Entry>, key: Key)
    requires Sorted(es)
    ensures Sorted(OfKey(es, key))
  {
    hide Less;
    if es != [] {
      OfKeySorted(es[1..], key);
      var rest := OfKey(es[1..], key);
      assert forall y :: y in rest ==> y in es[1..] && Less(es[0], y);
      SortedAppend([es[0]], rest);
      assert [] + rest == rest;
    }
  }

  /** A sorted sequence is determined by its elements. */
  lemma {:induction false} SortedUnique(a: seq<Entry>, b: seq<Entry>)
    requires Sorted(a) && Sorted(b) && forall e :: e in a <==> e in b
    ensures a == b
  {
    if b != [] { assert b[0] in b; }
    if a != [] {
      assert a[0] in b && b[0] in a;
      assert a[0] == b[0] by {
        var i :| 0 <= i < |b| && b[i] == a[0];
        var j :| 0 <= j < |a| && a[j] == b[0];
        assert i > 0 ==> Less(b[0], b[i]);
        assert j > 0 ==> Less(a[0], a[j]);
      }
      forall e ensures e in a[1..] <==> e in b[1..] {
        Distinct(a, e);
        Distinct(b, e);
      }
      SortedUnique(a[1..], b[1..]);
    }
  }

  lemma {:induction false} Distinct(a: seq<Entry>, e: Entry)
    requires Sorted(a) && a != []
    ensures e in a[1..] <==> e in a && e != a[0]
  {
    assert a == [a[0]] + a[1..];
    if e in a[1..] {
      var i :| 0 < i < |a| && a[i] == e;
      assert Less(a[0], a[i]);
    }
  }

  /** A sorted view that shows exactly the live versions of a key reads it as the levels mean it. */
  lemma {:induction false} ViewMeans(levels: seq<Level>, merge: Merger, key: Key, snapshot: nat, es: seq<Entry>)
    requires LevelInvariant(levels) && Sorted(es)
    requires forall e: Entry :: e.key == key ==> (e in es <==> IsVersion(levels, key, snapshot, e))
    ensures DB.Lookup(es, merge, key) == Meaning(levels, merge, key, snapshot)
  {
    hide LevelInvariant, Counts, Less, IsVersion;
    var counted := Counting(AllPoints(levels), AllTombs(levels), key, snapshot);
    ReadIsLookup(AllPoints(levels), AllTombs(levels), merge, key, snapshot);
    StackSorted(levels, AllTombs(levels), key, snapshot);
    LookupOfKey(es, merge, key);
    OfKeySorted(es, key);
    forall e ensures e in OfKey(es, key) <==> e in counted {
      CountingIsLive(levels, key, snapshot, e);
      VersionHasKey(levels, key, snapshot, e);
    }
    SortedUnique(OfKey(es, key), counted);
  }

  lemma {:induction false} VersionHasKey(levels: seq<Level>, key: Key, snapshot: nat, e: Entry)
    ensures IsVersion(levels, key, snapshot, e) ==> e.key == key
  {
  }

  // --- iterators ---------------------------------------------------------------------------

  /** In each level, only the last version of a key has the sequence number zero. */
  ghost predicate ZeroIsLastEach(levels: seq<Level>) {
    forall l :: 0 <= l < |levels| ==> DB.ZeroIsLast(levels[l].points)
  }

  /** Sorted live entries are what the iterator expects of its input. */
  lemma {:induction false} ViewIsInput(levels: seq<Level>, snapshot: nat, es: seq<Entry>)
    requires LevelInvariant(levels) && ZeroIsLastEach(levels) && Sorted(es) && forall e :: e in es ==> IsLive(levels, snapshot, e)
    ensures DB.ZeroIsLast(es) && forall i :: 0 <= i < |es| ==> es[i].IsPoint()
  {
    hide Live;
    forall i | 0 <= i < |es| ensures es[i].IsPoint() {
      assert IsLive(levels, snapshot, es[i]);
    }
    forall i, j | 0 <= i < j < |es| && es[i].seqNum == 0 ensures es[i].key != es[j].key {
      assert IsLive(levels, snapshot, es[i]) && IsLive(levels, snapshot, es[j]);
      var a, m :| 0 <= a < |levels| && 0 <= m < |levels[a].points| && levels[a].points[m] == es[i] && Live(levels, snapshot, a, m);
      var b, n :| 0 <= b < |levels| && 0 <= n < |levels[b].points| && levels[b].points[n] == es[j] && Live(levels, snapshot, b, n);
      assert Less(es[i], es[j]);
      ZeroHasNoOlder(levels, a, m, b, n);
    }
  }

  lemma {:induction false} ZeroHasNoOlder(levels: seq<Level>, a: int, m: int, b: int, n: int)
    requires LevelInvariant(levels) && ZeroIsLastEach(levels)
    requires 0 <= a < |levels| && 0 <= m < |levels[a].points| && 0 <= b < |levels| && 0 <= n < |levels[b].points|
    requires levels[a].points[m].seqNum == 0 && Less(levels[a].points[m], levels[b].points[n])
    ensures levels[a].points[m].key != levels[b].points[n].key
  {
    var x, y := levels[a].points[m], levels[b].points[n];
    assert x in levels[a].points && y in levels[b].points;
    if a == b {
      assert n < m ==> Less(y, x);
      assert DB.ZeroIsLast(levels[a].points);
    }
  }

  lemma {:induction false} InOneOrder(es: seq<Entry>, x: Entry, y: Entry)
    requires Sorted(es) && x in es && y in es && x != y
    ensures Less(x, y) || Less(y, x)
  {
    var i :| 0 <= i < |es| && es[i] == x;
    var j :| 0 <= j < |es| && es[j] == y;
    assert i < j || j < i;
  }

  lemma {:induction false} Comparable(levels: seq<Level>, x: Entry, y: Entry)
    requires LevelInvariant(levels) && x in AllPoints(levels) && y in AllPoints(levels) && x != y
    ensures Less(x, y) || Less(y, x)
  {
    hide LevelInvariant;
    AllPointsAre(levels, x);
    AllPointsAre(levels, y);
    var a :| 0 <= a < |levels| && x in levels[a].points;
    var b :| 0 <= b < |levels| && y in levels[b].points;
    if a == b {
      LevelFacts(levels, a);
      InOneOrder(levels[a].points, x, y);
    } else if x.key == y.key {
      if a < b { NewerPoint(levels, a, b, x, y); } else { NewerPoint(levels, b, a, y, x); }
    }
  }

  lemma {:induction false} Insert(s: seq<Entry>, e: Entry) returns (r: seq<Entry>)
    requires Sorted(s) && forall x :: x in s ==> Less(x, e) || Less(e, x)
    ensures Sorted(r) && forall x :: x in r <==> x in s || x == e
  {
    if s == [] {
      r := [e];
    } else if Less(e, s[0]) {
      assert forall y :: y in s ==> y == s[0] || Less(s[0], y);
      SortedAppend([e], s);
      r := [e] + s;
    } else {
      assert s == [s[0]] + s[1..];
      var rest := Insert(s[1..], e);
      SortedAppend([s[0]], rest);
      r := [s[0]] + rest;
    }
  }

  lemma {:induction false} SortLive(levels: seq<Level>, snapshot: nat, es: seq<Entry>) returns (view: seq<Entry>)
    requires LevelInvariant(levels) && forall e :: e in es ==> e in AllPoints(levels)
    ensures Sorted(view) && forall e :: e in view <==> e in es && IsLive(levels, snapshot, e)
  {
    hide LevelInvariant, IsLive, Less;
    if es == [] {
      view := [];
    } else {
      assert es == [es[0]] + es[1..];
      view := SortLive(levels, snapshot, es[1..]);
      if IsLive(levels, snapshot, es[0]) && es[0] !in view {
        forall x | x in view ensures Less(x, es[0]) || Less(es[0], x) { Comparable(levels, x, es[0]); }
        view := Insert(view, es[0]);
      }
    }
  }

  /** The live entries of a store can be put in order. */
  lemma {:induction false} ViewExists(levels: seq<Level>, snapshot: nat) returns (view: seq<Entry>)
    requires LevelInvariant(levels)
    ensures IsView(levels, snapshot, view)
  {
    hide LevelInvariant, Sorted;
    view := SortLive(levels, snapshot, AllPoints(levels));
    forall e | IsLive(levels, snapshot, e) ensures e in view {
      IsInLevel(levels, snapshot, e);
      AllPointsAre(levels, e);
    }
  }

  /** Any run of iterator calls over a store, through a mergingIter that changes direction with it, shows what
      `CallAll` says of the live entries. For an operator that does not look at the key that is a cursor over
      the map from keys to what the levels mean. */
  method Iterate(levels: seq<Level>, snapshot: nat, merge: Merger, ops: seq<DB.Op>)
    returns (seen: seq<Option<(Key, Value)>>, ghost view: seq<Entry>)
    requires LevelInvariant(levels) && ZeroIsLastEach(levels) && Associative(merge)
    ensures IsView(levels, snapshot, view) && DB.IsInput(view)
    ensures forall key :: DB.Lookup(view, merge, key) == Meaning(levels, merge, key, snapshot)
    ensures |seen| == |ops|
    ensures forall i :: 0 <= i < |ops| ==> seen[i] == DB.CallAll(view, merge, DB.Unmoved, ops[..i + 1]).shown
    ensures KeyFree(merge) ==> forall i :: 0 <= i < |ops| ==>
      seen[i] == DB.Observe(view, merge, DB.MoveAll(view, merge, DB.AfterLast, ops[..i + 1]))
  {
    hide LevelInvariant, ZeroIsLastEach, Associative, KeyFree, IsLive, Meaning, Sorted, DB.Observe, DB.MoveAll, DB.CallAll,
         DB.Lookup, DB.ZeroIsLast;
    view := ViewExists(levels, snapshot);
    ViewIsInput(levels, snapshot, view);
    var merging := new MergingIter.Iterator(levels, snapshot);
    var wrapped := new I.Iterator.OverLevels(merging, view);
    var iter := new DB.Iterator(wrapped, merge, None, None);
    seen := iter.Run(ops);
    forall key ensures DB.Lookup(view, merge, key) == Meaning(levels, merge, key, snapshot) {
      forall e: Entry | e.key == key ensures e in view <==> IsVersion(levels, key, snapshot, e) {}
      ViewMeans(levels, merge, key, snapshot, view);
    }
    if KeyFree(merge) {
      forall i | 0 <= i < |ops|
        ensures seen[i] == DB.Observe(view, merge, DB.MoveAll(view, merge, DB.AfterLast, ops[..i + 1]))
      {
        DB.KeyFreeShows(view, merge, ops[..i + 1]);
      }
    }
  }

  // --- gets --------------------------------------------------------------------------------

  /** A memtable and the sequence number at which it was created. */
  datatype MemTable = MemTable(level: Level, logSeqNum: nat)

  /** A memtable only takes writes sequenced after its creation. */
  ghost predicate WrittenSince(m: MemTable) {
    && (forall e :: e in m.level.points ==> m.logSeqNum <= e.seqNum < SEQ_NUM_BATCH)
    && (forall t :: t in m.level.tombs ==> m.logSeqNum <= t.seqNum < SEQ_NUM_BATCH)
  }

  function Levels(mem: seq<MemTable>): (r: seq<Level>)
    ensures |r| == |mem| && forall i :: 0 <= i < |mem| ==> r[i] == mem[i].level
  {
    seq(|mem|, i requires 0 <= i < |mem| => mem[i].level)
  }

  /** Nothing in the level is seen at `snapshot`. */
  ghost predicate Unseen(level: Level, snapshot: nat) {
    && (forall e :: e in level.points ==> !Visible(e.seqNum, snapshot))
    && (forall t :: t in level.tombs ==> !Visible(t.seqNum, snapshot))
  }

  /** Levels that are not seen can be left out of a read. */
  lemma {:induction false} DropUnseen(above: seq<Level>, unseen: seq<Level>, below: seq<Level>, snapshot: nat, e: Entry)
    requires forall l :: 0 <= l < |unseen| ==> Unseen(unseen[l], snapshot)
    ensures IsLive(above + unseen + below, snapshot, e) <==> IsLive(above + below, snapshot, e)
  {
    hide IsLive, Unseen;
    LiveWithout(above, unseen, below, snapshot, e);
    LiveWith(above, unseen, below, snapshot, e);
  }

  lemma {:induction false} UncoveredWithout(
      above: seq<Level>, unseen: seq<Level>, below: seq<Level>, key: Key, seqNum: nat, s: nat)
    requires forall l :: 0 <= l < |unseen| ==> Unseen(unseen[l], s)
    ensures (forall m :: !CoveredIn(above + unseen + below, m, key, seqNum, s)) <==>
            (forall m :: !CoveredIn(above + below, m, key, seqNum, s))
  {
    hide Covered;
    var f, few, n := above + unseen + below, above + below, |unseen|;
    forall m ensures CoveredIn(few, m, key, seqNum, s) ==> CoveredIn(f, if m < |above| then m else m + n, key, seqNum, s) {
      assert 0 <= m < |few| ==> few[m] == f[if m < |above| then m else m + n];
    }
    forall m ensures CoveredIn(f, m, key, seqNum, s) ==> CoveredIn(few, if m < |above| then m else m - n, key, seqNum, s) {
      assert 0 <= m < |f| && !(|above| <= m < |above| + n) ==> f[m] == few[if m < |above| then m else m - n];
      if |above| <= m < |above| + n { UnseenCoversNot(unseen[m - |above|], key, seqNum, s); }
    }
  }

  lemma {:induction false} UnseenCoversNot(level: Level, key: Key, seqNum: nat, s: nat)
    requires Unseen(level, s)
    ensures !Covered(level.tombs, key, seqNum, s)
  {
  }

  lemma {:induction false} LiveWithout(
      above: seq<Level>, unseen: seq<Level>, below: seq<Level>, snapshot: nat, e: Entry)
    requires forall l :: 0 <= l < |unseen| ==> Unseen(unseen[l], snapshot)
    ensures IsLive(above + unseen + below, snapshot, e) ==> IsLive(above + below, snapshot, e)
  {
    hide CoveredIn;
    var f, s := above + unseen + below, above + below;
    if IsLive(f, snapshot, e) {
      var l, i :| 0 <= l < |f| && 0 <= i < |f[l].points| && f[l].points[i] == e && Live(f, snapshot, l, i);
      assert e in f[l].points;
      assert |above| <= l < |above| + |unseen| ==> Unseen(unseen[l - |above|], snapshot);
      var k := if l < |above| then l else l - |unseen|;
      assert s[k] == f[l];
      UncoveredWithout(above, unseen, below, e.key, e.seqNum, snapshot);
      assert Live(s, snapshot, k, i);
    }
  }

  lemma {:induction false} LiveWith(above: seq<Level>, unseen: seq<Level>, below: seq<Level>, snapshot: nat, e: Entry)
    requires forall l :: 0 <= l < |unseen| ==> Unseen(unseen[l], snapshot)
    ensures IsLive(above + below, snapshot, e) ==> IsLive(above + unseen + below, snapshot, e)
  {
    hide CoveredIn;
    var f, s := above + unseen + below, above + below;
    if IsLive(s, snapshot, e) {
      var l, i :| 0 <= l < |s| && 0 <= i < |s[l].points| && s[l].points[i] == e && Live(s, snapshot, l, i);
      var k := if l < |above| then l else l + |unseen|;
      assert f[k] == s[l];
      UncoveredWithout(above, unseen, below, e.key, e.seqNum, snapshot);
      assert Live(f, snapshot, k, i);
    }
  }

  lemma {:induction false} InvariantWithout(above: seq<Level>, unseen: seq<Level>, below: seq<Level>)
    requires LevelInvariant(above + unseen + below) && ZeroIsLastEach(above + unseen + below)
    ensures LevelInvariant(above + below) && ZeroIsLastEach(above + below)
  {
    hide DB.ZeroIsLast, OneOrigin, Fragmented, Sorted, NewerAbove;
    NewerWithout(above, unseen, below);
    var f, s := above + unseen + below, above + below;
    assert forall l :: 0 <= l < |s| ==> s[l] == f[if l < |above| then l else l + |unseen|];
  }

  /** `upper` may lie above `lower` in a stack. */
  ghost predicate MayLieOn(upper: Level, lower: Level) {
    && (forall p, q :: p in upper.points && q in lower.points && p.key == q.key ==> q.seqNum < p.seqNum)
    && (forall t, q :: t in upper.tombs && q in lower.points && t.Contains(q.key) ==> q.seqNum < t.seqNum)
    && (forall p, t :: p in upper.points && t in lower.tombs && t.Contains(p.key) ==> t.seqNum <= p.seqNum)
  }

  lemma {:induction false} NewerLies(levels: seq<Level>, a: int, b: int)
    requires NewerAbove(levels) && 0 <= a < b < |levels|
    ensures MayLieOn(levels[a], levels[b])
  {
  }

  lemma {:induction false} LiesNewer(levels: seq<Level>)
    requires forall a, b :: 0 <= a < b < |levels| ==> MayLieOn(levels[a], levels[b])
    ensures NewerAbove(levels)
  {
  }

  lemma {:induction false} NewerWithout(above: seq<Level>, unseen: seq<Level>, below: seq<Level>)
    requires NewerAbove(above + unseen + below)
    ensures NewerAbove(above + below)
  {
    hide MayLieOn, NewerAbove;
    var f, s, n := above + unseen + below, above + below, |unseen|;
    forall a, b | 0 <= a < b < |s| ensures MayLieOn(s[a], s[b]) {
      var a', b' := if a < |above| then a else a + n, if b < |above| then b else b + n;
      assert s[a] == f[a'] && s[b] == f[b'];
      NewerLies(f, a', b');
    }
    LiesNewer(s);
  }

  /** The memtables that a read at `snapshot` consults: the newest are skipped while they were created at
      or after it. */
  method StripMemTables(mem: seq<MemTable>, snapshot: nat) returns (n: nat)
    requires forall i :: 0 <= i < |mem| ==> WrittenSince(mem[i])
    ensures n <= |mem| && (n > 0 ==> mem[n - 1].logSeqNum < snapshot)
    ensures forall i :: n <= i < |mem| ==> mem[i].logSeqNum >= snapshot && Unseen(mem[i].level, snapshot)
  {
    n := |mem|;
    while n > 0 && mem[n - 1].logSeqNum >= snapshot
      invariant n <= |mem| && forall i :: n <= i < |mem| ==>
        mem[i].logSeqNum >= snapshot && Unseen(mem[i].level, snapshot)
    {
      n := n - 1;
      assert WrittenSince(mem[n]);
    }
  }

  function Newest(batch: Option<Level>): seq<Level> {
    match batch case None => [] case Some(b) => [b]
  }

  lemma {:induction false} StackWithout(
      batch: Option<Level>, mem: seq<MemTable>, n: nat, l0: seq<Level>, rest: seq<Level>)
    requires n <= |mem|
    ensures var below := Reverse(Levels(mem[..n])) + Reverse(l0) + rest;
      && Stack(batch, Levels(mem), l0, rest) == Newest(batch) + Reverse(Levels(mem[n..])) + below
      && Stack(batch, Levels(mem[..n]), l0, rest) == Newest(batch) + below
  {
    hide Reverse, Levels;
    ReverseSplit(mem, n);
  }

  lemma {:induction false} ReverseSplit(mem: seq<MemTable>, n: nat)
    requires n <= |mem|
    ensures Reverse(Levels(mem)) == Reverse(Levels(mem[n..])) + Reverse(Levels(mem[..n]))
  {
  }

  /** Over versions of one key, the first call of a new iterator finds the key's value as the operator
      makes it when it is handed nil. */
  lemma {:induction false} FirstOfOne(es: seq<Entry>, merge: Merger, key: Key)
    requires forall e :: e in es ==> e.key == key
    ensures DB.Call(es, merge, DB.Unmoved, DB.Op.First).shown
         == match DB.Lookup(es, HandedAlways(merge, None), key) case None => None case Some(v) => Some((key, v))
  {
    hide DB.Lookup, HandedAlways;
    forall k | DB.Live(es, merge, k) ensures k == key {
      DB.LiveHasVersion(es, merge, k);
    }
    DB.LiveAnyway(es, merge, HandedAlways(merge, None), key);
    if DB.Live(es, merge, key) {
      assert DB.Least(es, merge, DB.All, key);
      forall j ensures !DB.PassedLast(es, DB.All, key, j) {
        assert 0 <= j < |es| ==> es[j] in es;
      }
    }
  }

  /** What Get asks of the store. */
  ghost predicate IsStore(batch: Option<Level>, mem: seq<MemTable>, l0: seq<Level>, version: seq<Level>)
    ensures IsStore(batch, mem, l0, version) ==> |version| == NUM_LEVELS
  {
    && |version| == NUM_LEVELS && (forall i :: 0 <= i < |mem| ==> WrittenSince(mem[i]))
    && LevelInvariant(Stack(batch, Levels(mem), l0, version[1..]))
    && ZeroIsLastEach(Stack(batch, Levels(mem), l0, version[1..]))
  }

  /** Get returns what all levels together mean to an operator that is handed nil, although it stops at the
      first tombstone and skips memtables by their creation. */
  method Get(
      key: Key, snapshot: nat, merge: Merger, batch: Option<Level>, mem: seq<MemTable>, l0: seq<Level>,
      version: seq<Level>)
    returns (value: Option<Value>)
    requires Associative(merge) && IsStore(batch, mem, l0, version)
    ensures value == Meaning(Stack(batch, Levels(mem), l0, version[1..]), HandedAlways(merge, None), key, snapshot)
  {
    hide LevelInvariant, ZeroIsLastEach, Associative, IsLive, Meaning, Stack, WrittenSince, DB.Lookup, DB.Call,
         HandedAlways, DB.Iterator.Valid, DB.ZeroIsLast, Sorted;
    var n := StripMemTables(mem, snapshot);
    ghost var levels := Stack(batch, Levels(mem), l0, version[1..]);
    ghost var fewer := Stack(batch, Levels(mem[..n]), l0, version[1..]);
    StackWithout(batch, mem, n, l0, version[1..]);
    ghost var unseen := Reverse(Levels(mem[n..]));
    ghost var below := Reverse(Levels(mem[..n])) + Reverse(l0) + version[1..];
    InvariantWithout(Newest(batch), unseen, below);
    var es := Versions(key, snapshot, batch, Levels(mem[..n]), l0, version);
    ViewIsInput(fewer, snapshot, es);
    forall e: Entry | e.key == key ensures e in es <==> IsVersion(levels, key, snapshot, e) {
      DropUnseen(Newest(batch), unseen, below, snapshot, e);
    }
    ViewMeans(levels, HandedAlways(merge, None), key, snapshot, es);
    var wrapped := new I.Iterator.OverVersions(es);
    var iter := new DB.Iterator(wrapped, merge, None, None);
    iter.First();
    FirstOfOne(es, merge, key);
    value := if iter.valid then Some(iter.value) else None;
    ValidShows(iter);
  }

  lemma {:induction false} ValidShows(iter: DB.Iterator)
    requires iter.Valid()
    ensures iter.State().shown.Some? <==> iter.valid
    ensures iter.valid ==> iter.State().shown.value.1 == iter.value
  {
  }

  // --- when gets return the meaning -------------------------------------------------------------

  /** What Get returns is what the levels mean. */
  ghost predicate GetsMeaning(merge: Merger, key: Key, snapshot: nat, levels: seq<Level>) {
    Meaning(levels, HandedAlways(merge, None), key, snapshot) == Meaning(levels, merge, key, snapshot)
  }

  lemma {:induction false} MeaningSame(levels: seq<Level>, merge: Merger, key: Key, snapshot: nat)
    requires forall a, b :: merge(None, a, b) == merge(Some(key), a, b)
    ensures GetsMeaning(merge, key, snapshot, levels)
  {
    hide Counting, Counts;
    ReadIsLookup(AllPoints(levels), AllTombs(levels), merge, key, snapshot);
    ReadIsLookup(AllPoints(levels), AllTombs(levels), HandedAlways(merge, None), key, snapshot);
    DB.HandedSame(Counting(AllPoints(levels), AllTombs(levels), key, snapshot), merge, None, key);
  }

  function Empty(n: nat): (r: seq<Level>)
    ensures |r| == n && forall i :: 0 <= i < n ==> r[i] == Level([], [])
  {
    seq(n, _ => Level([], []))
  }

  lemma {:induction false} NothingInEmpty(n: nat)
    ensures AllPoints(Empty(n)) == [] && AllTombs(Empty(n)) == []
  {
    if n > 0 {
      assert Empty(n)[1..] == Empty(n - 1);
      NothingInEmpty(n - 1);
    }
  }

  /** A store that holds two Merge versions of one key, in L0. */
  function ChainOnly(key: Key, older: Value, newer: Value): (levels: seq<Level>)
    ensures levels == Stack(None, Levels([]), [Level(DB.Chain(key, older, newer), [])], Empty(NUM_LEVELS)[1..])
  {
    assert Reverse(Levels([])) == [];
    assert Reverse([Level(DB.Chain(key, older, newer), [])]) == [Level(DB.Chain(key, older, newer), [])];
    assert Empty(NUM_LEVELS)[1..] == Empty(6);
    [Level(DB.Chain(key, older, newer), [])] + Empty(6)
  }

  lemma {:induction false} ChainIsStore(key: Key, older: Value, newer: Value)
    ensures IsStore(None, [], [Level(DB.Chain(key, older, newer), [])], Empty(NUM_LEVELS))
  {
    hide Stack, LevelInvariant, ZeroIsLastEach;
    var levels, es := ChainOnly(key, older, newer), DB.Chain(key, older, newer);
    assert Sorted(es) && DB.ZeroIsLast(es) && forall e :: e in es ==> e.IsPoint();
    OneLevel(levels);
  }

  lemma {:induction false} OneLevel(levels: seq<Level>)
    requires levels != [] && levels[0].tombs == [] && forall l :: 0 < l < |levels| ==> levels[l] == Level([], [])
    requires Sorted(levels[0].points) && DB.ZeroIsLast(levels[0].points) && forall e :: e in levels[0].points ==> e.IsPoint()
    ensures LevelInvariant(levels) && ZeroIsLastEach(levels)
  {
    hide Sorted, Fragmented, OneOrigin, DB.ZeroIsLast, NewerAbove;
    NothingOk();
    forall l | 0 <= l < |levels|
      ensures Sorted(levels[l].points) && Fragmented(levels[l].tombs) && OneOrigin(levels[l].tombs)
      ensures DB.ZeroIsLast(levels[l].points) && forall e :: e in levels[l].points ==> e.IsPoint()
    {
      assert l > 0 ==> levels[l] == Level([], []);
    }
    NothingBelow(levels);
  }

  lemma {:induction false} NothingOk()
    ensures Sorted([]) && Fragmented([]) && OneOrigin([]) && DB.ZeroIsLast([])
  {
  }

  lemma {:induction false} NothingBelow(levels: seq<Level>)
    requires forall l :: 0 < l < |levels| ==> levels[l] == Level([], [])
    ensures NewerAbove(levels)
  {
  }

  lemma {:induction false} ChainMeans(merge: Merger, key: Key, older: Value, newer: Value)
    ensures Meaning(ChainOnly(key, older, newer), merge, key, 3) == Some(merge(Some(key), older, newer))
  {
    var es := DB.Chain(key, older, newer);
    var levels := ChainOnly(key, older, newer);
    NothingInEmpty(6);
    assert levels[1..] == Empty(6);
    assert AllPoints(levels) == es && AllTombs(levels) == [];
    assert es[1..] == [es[1]] && es[1..][1..] == [];
    assert Counts(es[0], [], key, 3) && Counts(es[1], [], key, 3);
    assert Read(es[1..], [], merge, key, 3, None) == Some(older);
  }

  /** Every Get of a key returns what the levels mean exactly when the operator does not tell the key from nil. */
  lemma {:induction false} GetExactly(merge: Merger, key: Key)
    ensures (forall snapshot, batch, mem, l0, version :: IsStore(batch, mem, l0, version) ==>
               GetsMeaning(merge, key, snapshot, Stack(batch, Levels(mem), l0, version[1..])))
       <==> (forall a, b :: merge(None, a, b) == merge(Some(key), a, b))
  {
    hide IsStore, Meaning, Stack;
    if forall a, b :: merge(None, a, b) == merge(Some(key), a, b) {
      forall snapshot, levels ensures GetsMeaning(merge, key, snapshot, levels) {
        MeaningSame(levels, merge, key, snapshot);
      }
    } else {
      var a, b :| merge(None, a, b) != merge(Some(key), a, b);
      var l0, version := [Level(DB.Chain(key, a, b), [])], Empty(NUM_LEVELS);
      ChainIsStore(key, a, b);
      ChainMeans(merge, key, a, b);
      ChainMeans(HandedAlways(merge, None), key, a, b);
      assert !GetsMeaning(merge, key, 3, ChainOnly(key, a, b));
      assert ChainOnly(key, a, b) == Stack(None, Levels([]), l0, version[1..]);
    }
  }

  /** Gets of every key return what the levels mean exactly when the operator gives the same result at every key. */
  lemma {:induction false} GetsExactly(merge: Merger)
    ensures (forall key, snapshot, batch, mem, l0, version :: IsStore(batch, mem, l0, version) ==>
               GetsMeaning(merge, key, snapshot, Stack(batch, Levels(mem), l0, version[1..])))
       <==> KeyFree(merge)
  {
    hide IsStore, GetsMeaning, Stack;
    if KeyFree(merge) {
      forall key, snapshot, batch, mem, l0, version | IsStore(batch, mem, l0, version)
        ensures GetsMeaning(merge, key, snapshot, Stack(batch, Levels(mem), l0, version[1..]))
      {
        DB.KeyFreeAt(merge, None, Some(key));
        GetExactly(merge, key);
      }
    } else {
      var key: Option<Key>, a, b :| merge(key, a, b) != merge(None, a, b);
      GetExactly(merge, key.value);
      assert merge(None, a, b) != merge(Some(key.value), a, b);
    }
  }
}
