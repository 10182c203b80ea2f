/** batch.go and mem_table.go: a batch in a memtable, and a large batch that stands in for one. */
module FlushableBatch {
  import opened Wrappers
  import opened BlockCodec
  import opened BlockIter
  import opened Batches

  // --- sorted sequences -----------------------------------------------------------------

  ghost predicate Transitive<T(!new)>(less: (T, T) -> bool) {
    forall a, b, c :: less(a, b) && less(b, c) ==> less(a, c)
  }

  ghost predicate Asymmetric<T(!new)>(less: (T, T) -> bool) {
    forall a, b :: less(a, b) ==> !less(b, a)
  }

  ghost predicate InOrderOf<T>(less: (T, T) -> bool, s: seq<T>) {
    forall i, j :: 0 <= i < j < |s| ==> less(s[i], s[j])
  }

  /** Inserts an element where it belongs, unless one like it is there. */
  method Insert<T(!new)>(less: (T, T) -> bool, s: seq<T>, x: T) returns (r: seq<T>, found: bool)
    requires InOrderOf(less, s) && Transitive(less)
    ensures found ==> r == s && exists i :: 0 <= i < |s| && !less(s[i], x) && !less(x, s[i])
    ensures !found ==> InOrderOf(less, r) && forall y :: y in r <==> y in s || y == x
  {
    var i := 0;
    while i < |s| && less(s[i], x)
      invariant i <= |s| && forall j :: 0 <= j < i ==> less(s[j], x)
    {
      i := i + 1;
    }
    if i < |s| && !less(x, s[i]) { return s, true; }
    r, found := s[..i] + [x] + s[i..], false;
    assert forall k :: i <= k < |s| ==> less(x, s[k]);
    assert s == s[..i] + s[i..];
  }

  /** A sequence in order is determined by its elements. */
  lemma {:induction false} InOrderUnique<T(!new)>(less: (T, T) -> bool, a: seq<T>, b: seq<T>)
    requires InOrderOf(less, a) && InOrderOf(less, b) && Asymmetric(less) && forall x :: x in a <==> x in b
    ensures a == b
    decreases |a|
  {
    if b != [] { assert b[0] in b; }
    if a != [] {
      assert a[0] in b && b[0] in a;
      FirstIsLeast(less, a, b[0]);
      FirstIsLeast(less, b, a[0]);
      forall x ensures x in a[1..] <==> x in b[1..] {
        RestOf(less, a, x);
        RestOf(less, b, x);
      }
      InOrderUnique(less, a[1..], b[1..]);
    }
  }

  lemma {:induction false} FirstIsLeast<T(!new)>(less: (T, T) -> bool, a: seq<T>, x: T)
    requires InOrderOf(less, a) && x in a
    ensures x == a[0] || less(a[0], x)
  {
    var i :| 0 <= i < |a| && a[i] == x;
    assert i == 0 || less(a[0], a[i]);
  }

  lemma {:induction false} RestOf<T(!new)>(less: (T, T) -> bool, a: seq<T>, x: T)
    requires InOrderOf(less, a) && Asymmetric(less) && a != []
    ensures x in a[1..] <==> x in a && x != a[0]
  {
    assert a == [a[0]] + a[1..];
    if x in a[1..] {
      var i :| 0 < i < |a| && a[i] == x;
      assert less(a[0], a[i]);
    }
  }

  // --- the records as internal keys --------------------------------------------------------

  function MakeInternalKey(key: Bytes, seqNum: nat, kind: Byte): InternalKey {
    InternalKey(key, seqNum * 256 + kind)
  }

  predicate IsPoint(kind: Byte) { kind != LOG_DATA && kind != RANGE_DELETE }

  /** What memTable.apply makes of record `i`: log data takes no sequence number. */
  function MemItem(rs: seq<Record>, seqNum: nat, i: nat): Item
    requires i < |rs|
  {
    (MakeInternalKey(rs[i].key, seqNum + Count(rs[..i]), rs[i].kind), rs[i].value)
  }

  ghost predicate IsMemItem(rs: seq<Record>, seqNum: nat, n: nat, rangeDel: bool, item: Item)
    requires n <= |rs|
  {
    exists i: nat ::
      && i < n && (if rangeDel then rs[i].kind == RANGE_DELETE else IsPoint(rs[i].kind))
      && item == MemItem(rs, seqNum, i)
  }

  function ItemLess(cmp: Compare): (Item, Item) -> bool {
    (a: Item, b: Item) => InternalCompare(cmp, a.0, b.0) < 0
  }

  lemma {:induction false} ItemLessIsOrder(cmp: Compare)
    requires TotalOrder(cmp)
    ensures Transitive(ItemLess(cmp)) && Asymmetric(ItemLess(cmp))
  {
    var less := ItemLess(cmp);
    forall a, b, c | less(a, b) && less(b, c) ensures less(a, c) {
      LessTransitive(cmp, a.0.userKey, b.0.userKey, c.0.userKey);
    }
  }

  // --- memTable.apply -----------------------------------------------------------------------

  datatype Error = OldSeqNum | InconsistentCount

  /** The skiplists after the first `n` records have been applied. */
  ghost predicate Applied(
      less: (Item, Item) -> bool, before: seq<Item>, after: seq<Item>, rs: seq<Record>, seqNum: nat, n: nat,
      rangeDel: bool)
    requires n <= |rs|
  {
    && InOrderOf(less, after)
    && forall item :: item in after <==> item in before || IsMemItem(rs, seqNum, n, rangeDel, item)
  }

  lemma {:induction false} AppliedNone(
      less: (Item, Item) -> bool, before: seq<Item>, rs: seq<Record>, seqNum: nat, rangeDel: bool)
    requires InOrderOf(less, before)
    ensures Applied(less, before, before, rs, seqNum, 0, rangeDel)
  {
  }

  /** Record `n` goes into one skiplist or into none. */
  lemma {:induction false} AppliedMore(less: (Item, Item) -> bool, before: seq<Item>, after: seq<Item>, more: seq<Item>,
                                       rs: seq<Record>, seqNum: nat, n: nat, rangeDel: bool)
    requires n < |rs| && Applied(less, before, after, rs, seqNum, n, rangeDel)
    requires var here := if rangeDel then rs[n].kind == RANGE_DELETE else IsPoint(rs[n].kind);
      if here then InOrderOf(less, more) && forall item :: item in more <==> item in after || item == MemItem(rs, seqNum, n)
      else more == after
    ensures Applied(less, before, more, rs, seqNum, n + 1, rangeDel)
  {
    hide InOrderOf, MemItem;
    forall item ensures item in more <==> item in before || IsMemItem(rs, seqNum, n + 1, rangeDel, item) {
      MemItemStep(rs, seqNum, n, rangeDel, item);
    }
  }

  lemma {:induction false} MemItemStep(rs: seq<Record>, seqNum: nat, n: nat, rangeDel: bool, item: Item)
    requires n < |rs|
    ensures IsMemItem(rs, seqNum, n + 1, rangeDel, item) <==>
      IsMemItem(rs, seqNum, n, rangeDel, item)
      || ((if rangeDel then rs[n].kind == RANGE_DELETE else IsPoint(rs[n].kind)) && item == MemItem(rs, seqNum, n))
  {
    hide MemItem;
  }

  /** None of the sequence numbers from `lo` to `hi` is taken. */
  ghost predicate Unused(items: seq<Item>, lo: nat, hi: nat) {
    forall item :: item in items ==> item.0.trailer < lo * 256 || item.0.trailer >= hi * 256
  }

  lemma {:induction false} CountGrows(rs: seq<Record>, i: nat, n: nat)
    requires i < n <= |rs|
    ensures Count(rs[..n]) >= Count(rs[..i]) + (if rs[i].kind == LOG_DATA then 0 else 1)
    decreases n
  {
    assert rs[..n][..n - 1] == rs[..n - 1];
    if i < n - 1 { CountGrows(rs, i, n - 1); }
  }

  /** The sequence number of a record is not yet in the skiplist. */
  lemma {:induction false} NotThere(
      cmp: Compare, before: seq<Item>, after: seq<Item>, rs: seq<Record>, seqNum: nat, n: nat, rangeDel: bool, i: int)
    requires n < |rs| && rs[n].kind != LOG_DATA && Applied(ItemLess(cmp), before, after, rs, seqNum, n, rangeDel)
    requires Unused(before, seqNum, seqNum + Count(rs)) && 0 <= i < |after| && TotalOrder(cmp)
    ensures ItemLess(cmp)(after[i], MemItem(rs, seqNum, n)) || ItemLess(cmp)(MemItem(rs, seqNum, n), after[i])
  {
    var item := after[i];
    assert item in after;
    CountGrows(rs, n, |rs|);
    assert rs[..|rs|] == rs;
    if item !in before {
      var k: nat :| k < n && (if rangeDel then rs[k].kind == RANGE_DELETE else IsPoint(rs[k].kind)) && item == MemItem(rs, seqNum, k);
      CountGrows(rs, k, n);
    }
    assert item.0.trailer != MemItem(rs, seqNum, n).0.trailer;
  }

  class MemTable {
    const cmp: Compare
    const logSeqNum: nat
    var skl: seq<Item>
    var rangeDelSkl: seq<Item>

    ghost predicate Valid()
      reads this
    {
      TotalOrder(cmp) && InOrderOf(ItemLess(cmp), skl) && InOrderOf(ItemLess(cmp), rangeDelSkl)
    }

    constructor (cmp: Compare, logSeqNum: nat)
      requires TotalOrder(cmp)
      ensures Valid() && this.cmp == cmp && this.logSeqNum == logSeqNum && skl == [] && rangeDelSkl == []
    {
      this.cmp, this.logSeqNum, skl, rangeDelSkl := cmp, logSeqNum, [], [];
    }

    /** Adds one entry to a skiplist that does not hold its sequence number. */
    method Add(
        s: seq<Item>, item: Item, ghost before: seq<Item>, ghost rs: seq<Record>, ghost start: nat, ghost n: nat,
        ghost rangeDel: bool)
      returns (more: seq<Item>)
      requires TotalOrder(cmp) && n < |rs| && Applied(ItemLess(cmp), before, s, rs, start, n, rangeDel)
      requires (if rangeDel then rs[n].kind == RANGE_DELETE else IsPoint(rs[n].kind)) && item == MemItem(rs, start, n)
      requires Unused(before, start, start + Count(rs))
      ensures Applied(ItemLess(cmp), before, more, rs, start, n + 1, rangeDel)
    {
      hide InOrderOf, Applied, IsMemItem, Unused, TotalOrder, MemItem;
      ItemLessIsOrder(cmp);
      AppliedOrdered(ItemLess(cmp), before, s, rs, start, n, rangeDel);
      var found;
      more, found := Insert(ItemLess(cmp), s, item);
      if found {
        ghost var i :| 0 <= i < |s| && !ItemLess(cmp)(s[i], item) && !ItemLess(cmp)(item, s[i]);
        NotThere(cmp, before, s, rs, start, n, rangeDel, i);
        assert false;
      }
      AppliedMore(ItemLess(cmp), before, s, more, rs, start, n, rangeDel);
    }

    /** Adds the records of a batch under the sequence numbers from `start` on. */
    method Apply(data: Bytes, count: nat, start: nat, ghost rs: seq<Record>) returns (err: Option<Error>)
      requires Valid() && data == EncodeAll(rs) && forall r :: r in rs ==> Batches.WellFormed(r)
      requires Unused(skl, start, start + Count(rs)) && Unused(rangeDelSkl, start, start + Count(rs))
      modifies this
      ensures Valid()
      ensures err == if start < logSeqNum then Some(OldSeqNum) else if count != Count(rs) then Some(InconsistentCount) else None
      ensures err != Some(OldSeqNum) ==>
        && Applied(ItemLess(cmp), old(skl), skl, rs, start, |rs|, false)
        && Applied(ItemLess(cmp), old(rangeDelSkl), rangeDelSkl, rs, start, |rs|, true)
    {
      hide EncodeAll, EncodeRecord, NextRecord, Batches.WellFormed, InOrderOf, Applied, IsMemItem, Unused, TotalOrder,
           ItemLess;
      if start < logSeqNum { return Some(OldSeqNum); }
      var seqNum: int := start;
      var p := 0;
      ghost var n, less := 0, ItemLess(cmp);
      EncodeNone();
      assert rs[..0] == [];
      AppliedNone(less, skl, rs, start, false);
      AppliedNone(less, rangeDelSkl, rs, start, true);
      while true
        invariant n <= |rs| && p == |EncodeAll(rs[..n])| <= |data| && seqNum == start + Count(rs[..n])
        invariant Applied(less, old(skl), skl, rs, start, n, false)
        invariant Applied(less, old(rangeDelSkl), rangeDelSkl, rs, start, n, true)
        decreases |data| - p
      {
        var next := NextRecord(data, p);
        if n == |rs| { ReadEnds(rs, data); } else { RecordAt(rs, n); RecordRoundTrip(data, p, rs[n]); }
        if next == None { break; }
        var r := next.value.0;
        assert rs[..n + 1][..n] == rs[..n];
        var item := (MakeInternalKey(r.key, seqNum, r.kind), r.value);
        if r.kind != RANGE_DELETE { AppliedMore(less, old(rangeDelSkl), rangeDelSkl, rangeDelSkl, rs, start, n, true); }
        if !IsPoint(r.kind) { AppliedMore(less, old(skl), skl, skl, rs, start, n, false); }
        if r.kind == RANGE_DELETE {
          rangeDelSkl := Add(rangeDelSkl, item, old(rangeDelSkl), rs, start, n, true);
        } else if r.kind == LOG_DATA {
          seqNum := seqNum - 1;
        } else {
          skl := Add(skl, item, old(skl), rs, start, n, false);
        }
        seqNum := seqNum + 1;
        p := next.value.1;
        n := n + 1;
      }
      AppliedOrdered(less, old(skl), skl, rs, start, n, false);
      AppliedOrdered(less, old(rangeDelSkl), rangeDelSkl, rs, start, n, true);
      assert rs[..|rs|] == rs;
      err := if seqNum != start + count then Some(InconsistentCount) else None;
    }
  }

  lemma {:induction false} AppliedOrdered(
      less: (Item, Item) -> bool, before: seq<Item>, after: seq<Item>, rs: seq<Record>, seqNum: nat, n: nat,
      rangeDel: bool)
    requires n <= |rs| && Applied(less, before, after, rs, seqNum, n, rangeDel)
    ensures InOrderOf(less, after)
  {
  }

  // --- flushableBatch ------------------------------------------------------------------------

  datatype FlushEntry = FlushEntry(offset: nat, index: nat, keyStart: nat, keyEnd: nat)

  function Slice(data: Bytes, start: nat, end: nat): Bytes {
    if start <= end <= |data| then data[start..end] else []
  }

  /** Key ascending, then later records first. */
  function EntryLess(cmp: Compare, data: Bytes): (FlushEntry, FlushEntry) -> bool {
    (a: FlushEntry, b: FlushEntry) =>
      var c := cmp(Slice(data, a.keyStart, a.keyEnd), Slice(data, b.keyStart, b.keyEnd));
      c < 0 || (c == 0 && a.offset > b.offset)
  }

  lemma {:induction false} EntryLessTransitive(cmp: Compare, data: Bytes)
    requires TotalOrder(cmp)
    ensures Transitive(EntryLess(cmp, data))
  {
    var less := EntryLess(cmp, data);
    forall a, b, c | less(a, b) && less(b, c) ensures less(a, c) {
      LessTransitive(cmp, Slice(data, a.keyStart, a.keyEnd), Slice(data, b.keyStart, b.keyEnd), Slice(data, c.keyStart, c.keyEnd));
    }
  }

  /** The entry points at record `index` of the batch. */
  ghost predicate PointsAt(data: Bytes, rs: seq<Record>, e: FlushEntry) {
    && e.index < |rs| && e.offset == |EncodeAll(rs[..e.index])| < |data|
    && e.keyStart <= e.keyEnd <= |data| && data[e.keyStart..e.keyEnd] == rs[e.index].key
    && data[e.offset] == rs[e.index].kind
    && (HasValue(rs[e.index].kind) ==> DecodeStr(data, e.keyEnd).Some? && DecodeStr(data, e.keyEnd).value.0 == rs[e.index].value)
  }

  lemma {:induction false} StrParts(data: Bytes, p: nat, s: Bytes)
    requires |s| < MAX_SIZE && At(data, p, EncodeStr(s))
    ensures Readable(data, p)
    ensures var q := if |s| == 0 then p + 1 else ReadUvarint(data, p).1;
      q + |s| == p + |EncodeStr(s)| <= |data| && data[q..q + |s|] == s
  {
    hide Readable, ReadUvarint;
    AtSplit(data, p, Varint(|s|), s);
    VarintRoundTrip(data, p, |s|);
  }

  /** Where the key and the value of a record are. */
  lemma {:induction false} RecordParts(data: Bytes, p: nat, r: Record)
    requires Batches.WellFormed(r) && At(data, p, EncodeRecord(r))
    ensures p + 1 < |data| && data[p] == r.kind && Readable(data, p + 1)
    ensures var start := if |r.key| == 0 then p + 2 else ReadUvarint(data, p + 1).1;
      && start + |r.key| <= |data| && data[start..start + |r.key|] == r.key
      && (HasValue(r.kind) ==> DecodeStr(data, start + |r.key|).Some? && DecodeStr(data, start + |r.key|).value.0 == r.value)
  {
    hide Readable, ReadUvarint, DecodeStr, EncodeStr, At, EncodeRecord;
    RecordSplits(data, p, r);
    StrParts(data, p + 1, r.key);
    if HasValue(r.kind) { StrRoundTrip(data, p + 1 + |EncodeStr(r.key)|, r.value); }
  }

  /** What flushableBatchIter makes of an entry: getKey and Value. */
  function FlushItem(data: Bytes, seqNum: nat, e: FlushEntry): Item
    requires e.offset < |data|
  {
    var kind := data[e.offset];
    var key := MakeInternalKey(Slice(data, e.keyStart, e.keyEnd), seqNum + e.index, kind);
    (key, if HasValue(kind) && DecodeStr(data, e.keyEnd).Some? then DecodeStr(data, e.keyEnd).value.0 else [])
  }

  /** The sorted entries of the records of one sort among the first `n`. */
  ghost predicate Indexed(cmp: Compare, data: Bytes, rs: seq<Record>, n: nat, rangeDel: bool, entries: seq<FlushEntry>)
    requires n <= |rs|
  {
    && InOrderOf(EntryLess(cmp, data), entries)
    && (forall e :: e in entries ==> PointsAt(data, rs, e) && e.index < n && (rs[e.index].kind == RANGE_DELETE <==> rangeDel))
    && (forall i: nat :: i < n && (rs[i].kind == RANGE_DELETE <==> rangeDel) ==> HasEntry(entries, i))
  }

  ghost predicate HasEntry(entries: seq<FlushEntry>, i: nat) {
    exists e :: e in entries && e.index == i
  }

  lemma {:induction false} IndexedMore(
      cmp: Compare, data: Bytes, rs: seq<Record>, n: nat, rangeDel: bool, entries: seq<FlushEntry>,
      more: seq<FlushEntry>, e: FlushEntry)
    requires n < |rs| && Indexed(cmp, data, rs, n, rangeDel, entries) && PointsAt(data, rs, e) && e.index == n
    requires if rs[n].kind == RANGE_DELETE <==> rangeDel
             then InOrderOf(EntryLess(cmp, data), more) && forall x :: x in more <==> x in entries || x == e
             else more == entries
    ensures Indexed(cmp, data, rs, n + 1, rangeDel, more)
  {
    hide InOrderOf, PointsAt;
    forall i: nat | i < n + 1 && (rs[i].kind == RANGE_DELETE <==> rangeDel) ensures HasEntry(more, i) {
      if i < n {
        assert HasEntry(entries, i);
        var x :| x in entries && x.index == i;
        assert x in more;
      } else {
        assert e in more;
      }
    }
  }

  /** Two entries for different records are never alike. */
  lemma {:induction false} EntriesDiffer(
      cmp: Compare, data: Bytes, rs: seq<Record>, n: nat, rangeDel: bool, entries: seq<FlushEntry>, e: FlushEntry,
      i: int)
    requires n < |rs| && Indexed(cmp, data, rs, n, rangeDel, entries) && PointsAt(data, rs, e) && e.index == n
    requires 0 <= i < |entries| && TotalOrder(cmp)
    ensures EntryLess(cmp, data)(entries[i], e) || EntryLess(cmp, data)(e, entries[i])
  {
    var a := entries[i];
    assert a in entries;
    OffsetsGrow(rs, a.index, n);
    var ka, ke := Slice(data, a.keyStart, a.keyEnd), Slice(data, e.keyStart, e.keyEnd);
    assert (cmp(ka, ke) < 0 <==> cmp(ke, ka) > 0) && (cmp(ke, ka) < 0 <==> cmp(ka, ke) > 0);
  }

  lemma {:induction false} OffsetsGrow(rs: seq<Record>, i: nat, n: nat)
    requires i < n <= |rs|
    ensures |EncodeAll(rs[..i])| < |EncodeAll(rs[..n])|
    decreases n
  {
    hide EncodeRecord;
    assert rs[..n][..n - 1] == rs[..n - 1];
    if i < n - 1 { OffsetsGrow(rs, i, n - 1); }
  }

  method AddEntry(
      cmp: Compare, data: Bytes, entries: seq<FlushEntry>, e: FlushEntry, ghost rs: seq<Record>, ghost n: nat,
      ghost rangeDel: bool)
    returns (more: seq<FlushEntry>)
    requires TotalOrder(cmp) && n < |rs| && Indexed(cmp, data, rs, n, rangeDel, entries) && PointsAt(data, rs, e)
    requires e.index == n
    requires rs[n].kind == RANGE_DELETE <==> rangeDel
    ensures Indexed(cmp, data, rs, n + 1, rangeDel, more)
  {
    hide InOrderOf, Indexed, PointsAt, TotalOrder;
    EntryLessTransitive(cmp, data);
    IndexedOrdered(cmp, data, rs, n, rangeDel, entries);
    var found;
    more, found := Insert(EntryLess(cmp, data), entries, e);
    if found {
      ghost var i :| 0 <= i < |entries| && !EntryLess(cmp, data)(entries[i], e) && !EntryLess(cmp, data)(e, entries[i]);
      EntriesDiffer(cmp, data, rs, n, rangeDel, entries, e, i);
      assert false;
    }
    IndexedMore(cmp, data, rs, n, rangeDel, entries, more, e);
  }

  lemma {:induction false} IndexedOrdered(
      cmp: Compare, data: Bytes, rs: seq<Record>, n: nat, rangeDel: bool, entries: seq<FlushEntry>)
    requires n <= |rs| && Indexed(cmp, data, rs, n, rangeDel, entries)
    ensures InOrderOf(EntryLess(cmp, data), entries)
  {
  }

  /** newFlushableBatch: an index of the records in key order, range deletions apart. */
  method NewFlushableBatch(cmp: Compare, data: Bytes, ghost rs: seq<Record>)
    returns (offsets: seq<FlushEntry>, rangeDelOffsets: seq<FlushEntry>)
    requires TotalOrder(cmp) && data == EncodeAll(rs) && forall r :: r in rs ==> Batches.WellFormed(r)
    ensures Indexed(cmp, data, rs, |rs|, false, offsets) && Indexed(cmp, data, rs, |rs|, true, rangeDelOffsets)
  {
    hide EncodeAll, EncodeRecord, NextRecord, Batches.WellFormed, Indexed, TotalOrder, Readable, ReadUvarint, DecodeStr;
    offsets, rangeDelOffsets := [], [];
    var p, index := 0, 0;
    EncodeNone();
    assert rs[..0] == [];
    IndexedNone(cmp, data, rs);
    while p < |data|
      invariant index <= |rs| && p == |EncodeAll(rs[..index])| <= |data|
      invariant Indexed(cmp, data, rs, index, false, offsets) && Indexed(cmp, data, rs, index, true, rangeDelOffsets)
      decreases |data| - p
    {
      NotDone(rs, index);
      RecordAt(rs, index);
      RecordRoundTrip(data, p, rs[index]);
      RecordParts(data, p, rs[index]);
      var next := NextRecord(data, p);
      var r := next.value.0;
      var keyStart := if |r.key| == 0 then p + 2 else ReadUvarint(data, p + 1).1;
      var e := FlushEntry(p, index, keyStart, keyStart + |r.key|);
      if r.kind == RANGE_DELETE {
        IndexedMore(cmp, data, rs, index, false, offsets, offsets, e);
        rangeDelOffsets := AddEntry(cmp, data, rangeDelOffsets, e, rs, index, true);
      } else {
        IndexedMore(cmp, data, rs, index, true, rangeDelOffsets, rangeDelOffsets, e);
        offsets := AddEntry(cmp, data, offsets, e, rs, index, false);
      }
      p := next.value.1;
      index := index + 1;
    }
    AllRead(rs, index);
  }

  lemma {:induction false} IndexedNone(cmp: Compare, data: Bytes, rs: seq<Record>)
    ensures Indexed(cmp, data, rs, 0, false, []) && Indexed(cmp, data, rs, 0, true, [])
  {
  }

  // --- the two views --------------------------------------------------------------------------

  /** The entries in the order of flushableBatchIter. */
  function View(data: Bytes, seqNum: nat, entries: seq<FlushEntry>): (r: seq<Item>)
    requires forall e :: e in entries ==> e.offset < |data|
    ensures |r| == |entries| && forall i :: 0 <= i < |entries| ==> r[i] == FlushItem(data, seqNum, entries[i])
  {
    seq(|entries|, i requires 0 <= i < |entries| => FlushItem(data, seqNum, entries[i]))
  }

  ghost predicate NoLogData(rs: seq<Record>) {
    forall r :: r in rs ==> r.kind != LOG_DATA
  }

  lemma {:induction false} CountAll(rs: seq<Record>, n: nat)
    requires n <= |rs| && NoLogData(rs)
    ensures Count(rs[..n]) == n
  {
    if n > 0 {
      CountAll(rs, n - 1);
      assert rs[..n][..n - 1] == rs[..n - 1] && rs[n - 1] in rs;
    }
  }

  /** Without log data both number the records alike. */
  lemma {:induction false} FlushItemIs(data: Bytes, rs: seq<Record>, seqNum: nat, e: FlushEntry)
    requires NoLogData(rs) && PointsAt(data, rs, e) && forall r :: r in rs ==> Batches.WellFormed(r)
    ensures FlushItem(data, seqNum, e) == MemItem(rs, seqNum, e.index)
  {
    CountAll(rs, e.index);
    assert rs[e.index] in rs;
  }

  lemma {:induction false} ViewOrdered(
      cmp: Compare, data: Bytes, rs: seq<Record>, seqNum: nat, rangeDel: bool, entries: seq<FlushEntry>, i: int, j: int)
    requires TotalOrder(cmp) && Indexed(cmp, data, rs, |rs|, rangeDel, entries) && 0 <= i < j < |entries|
    ensures entries[i].offset < |data| && entries[j].offset < |data|
    ensures ItemLess(cmp)(FlushItem(data, seqNum, entries[i]), FlushItem(data, seqNum, entries[j]))
  {
    var a, b := entries[i], entries[j];
    assert a in entries && b in entries && EntryLess(cmp, data)(a, b);
    if a.index < b.index { OffsetsGrow(rs, a.index, b.index); }
    assert a.offset > b.offset ==> a.index > b.index;
    assert a.index > b.index ==> (seqNum + a.index) * 256 >= (seqNum + b.index) * 256 + 256;
  }

  /** A batch reads the same from a memtable it was applied to and from its flushable form exactly when it has no
      log data. Then the range deletions that the two give to their fragmenters are the same too. */
  method SameView(cmp: Compare, data: Bytes, count: nat, seqNum: nat, ghost rs: seq<Record>)
    returns (fromMemTable: seq<Item>, fromBatch: seq<Item>, delsFromMemTable: seq<Item>, delsFromBatch: seq<Item>)
    requires TotalOrder(cmp) && data == EncodeAll(rs) && forall r :: r in rs ==> Batches.WellFormed(r)
    ensures InOrderOf(ItemLess(cmp), fromMemTable) && InOrderOf(ItemLess(cmp), delsFromMemTable)
    ensures forall item :: item in fromMemTable <==> IsMemItem(rs, seqNum, |rs|, false, item)
    ensures forall item :: item in delsFromMemTable <==> IsMemItem(rs, seqNum, |rs|, true, item)
    ensures fromMemTable == fromBatch <==> NoLogData(rs)
    ensures NoLogData(rs) ==> delsFromMemTable == delsFromBatch
  {
    hide EncodeAll, Batches.WellFormed, TotalOrder, InOrderOf, IsMemItem, FlushItem, NoLogData, Indexed;
    var mem := new MemTable(cmp, seqNum);
    var _ := mem.Apply(data, count, seqNum, rs);
    fromMemTable, delsFromMemTable := mem.skl, mem.rangeDelSkl;
    var offsets, rangeDelOffsets := NewFlushableBatch(cmp, data, rs);
    EntriesInData(cmp, data, rs, false, offsets);
    EntriesInData(cmp, data, rs, true, rangeDelOffsets);
    fromBatch := View(data, seqNum, offsets);
    delsFromBatch := View(data, seqNum, rangeDelOffsets);
    AppliedOrdered(ItemLess(cmp), [], fromMemTable, rs, seqNum, |rs|, false);
    AppliedOrdered(ItemLess(cmp), [], delsFromMemTable, rs, seqNum, |rs|, true);
    if NoLogData(rs) {
      SameItems(cmp, data, rs, seqNum, false, offsets, fromMemTable);
      SameItems(cmp, data, rs, seqNum, true, rangeDelOffsets, delsFromMemTable);
    } else {
      ghost var item := LogShows(cmp, data, rs, seqNum, offsets);
    }
  }

  lemma {:induction false} EntriesInData(
      cmp: Compare, data: Bytes, rs: seq<Record>, rangeDel: bool, entries: seq<FlushEntry>)
    requires Indexed(cmp, data, rs, |rs|, rangeDel, entries)
    ensures forall e :: e in entries ==> e.offset < |data|
  {
    assert forall e :: e in entries ==> PointsAt(data, rs, e);
  }

  lemma {:induction false} SameItems(
      cmp: Compare, data: Bytes, rs: seq<Record>, seqNum: nat, rangeDel: bool, entries: seq<FlushEntry>, items: seq<Item>)
    requires TotalOrder(cmp) && Indexed(cmp, data, rs, |rs|, rangeDel, entries) && NoLogData(rs)
    requires forall r :: r in rs ==> Batches.WellFormed(r)
    requires InOrderOf(ItemLess(cmp), items) && forall item :: item in items <==> IsMemItem(rs, seqNum, |rs|, rangeDel, item)
    ensures forall e :: e in entries ==> e.offset < |data|
    ensures View(data, seqNum, entries) == items
  {
    hide EncodeAll, Batches.WellFormed, TotalOrder, InOrderOf, IsMemItem, FlushItem, NoLogData, Indexed;
    ViewIs(cmp, data, rs, seqNum, rangeDel, entries);
    ItemLessIsOrder(cmp);
    InOrderUnique(ItemLess(cmp), items, View(data, seqNum, entries));
  }

  /** The flushable form shows log data, which a memtable never does. */
  lemma {:induction false} LogShows(cmp: Compare, data: Bytes, rs: seq<Record>, seqNum: nat, entries: seq<FlushEntry>)
    returns (item: Item)
    requires Indexed(cmp, data, rs, |rs|, false, entries) && !NoLogData(rs)
    ensures forall e :: e in entries ==> e.offset < |data|
    ensures item in View(data, seqNum, entries) && !IsMemItem(rs, seqNum, |rs|, false, item)
  {
    EntriesInData(cmp, data, rs, false, entries);
    var k :| 0 <= k < |rs| && rs[k].kind == LOG_DATA;
    assert HasEntry(entries, k);
    var i :| 0 <= i < |entries| && entries[i].index == k;
    item := View(data, seqNum, entries)[i];
    assert entries[i] in entries;
    assert item.0.trailer == (seqNum + k) * 256 + LOG_DATA;
    forall j: nat | j < |rs| && IsPoint(rs[j].kind) ensures MemItem(rs, seqNum, j).0.trailer != item.0.trailer {
      SameKind(seqNum + Count(rs[..j]), rs[j].kind, seqNum + k, LOG_DATA);
    }
  }

  lemma {:induction false} SameKind(a: nat, x: Byte, b: nat, y: Byte)
    ensures a * 256 + x == b * 256 + y ==> x == y
  {
    if a < b { assert a * 256 + 256 <= b * 256; } else if a > b { assert b * 256 + 256 <= a * 256; }
  }

  lemma {:induction false} ViewIs(
      cmp: Compare, data: Bytes, rs: seq<Record>, seqNum: nat, rangeDel: bool, entries: seq<FlushEntry>)
    requires TotalOrder(cmp) && Indexed(cmp, data, rs, |rs|, rangeDel, entries) && NoLogData(rs)
    requires forall r :: r in rs ==> Batches.WellFormed(r)
    ensures forall e :: e in entries ==> e.offset < |data|
    ensures InOrderOf(ItemLess(cmp), View(data, seqNum, entries))
    ensures forall item :: item in View(data, seqNum, entries) <==> IsMemItem(rs, seqNum, |rs|, rangeDel, item)
  {
    assert forall e :: e in entries ==> PointsAt(data, rs, e);
    var view := View(data, seqNum, entries);
    hide TotalOrder, FlushItem, Batches.WellFormed, MemItem, ItemLess;
    forall i, j | 0 <= i < j < |view| ensures ItemLess(cmp)(view[i], view[j]) {
      ViewOrdered(cmp, data, rs, seqNum, rangeDel, entries, i, j);
    }
    forall item ensures item in view <==> IsMemItem(rs, seqNum, |rs|, rangeDel, item) {
      if item in view {
        var i :| 0 <= i < |view| && view[i] == item;
        assert entries[i] in entries;
        FlushItemIs(data, rs, seqNum, entries[i]);
        assert rs[entries[i].index] in rs;
      }
      if IsMemItem(rs, seqNum, |rs|, rangeDel, item) {
        var k: nat :| k < |rs| && (if rangeDel then rs[k].kind == RANGE_DELETE else IsPoint(rs[k].kind))
          && item == MemItem(rs, seqNum, k);
        assert HasEntry(entries, k);
        var e :| e in entries && e.index == k;
        FlushItemIs(data, rs, seqNum, e);
        var i :| 0 <= i < |entries| && entries[i] == e;
        assert view[i] == item;
      }
    }
  }
}
