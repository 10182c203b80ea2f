/** batch.go: the records of a batch and their encoding. */
module Batches {
  import opened Wrappers
  import opened BlockCodec

  const HEADER_LEN: nat := 12
  const MAX_SIZE: nat := 0x1_0000_0000

  const DELETE: Byte := 0
  const SET: Byte := 1
  const MERGE: Byte := 2
  const LOG_DATA: Byte := 3
  const SINGLE_DELETE: Byte := 7
  const RANGE_DELETE: Byte := 15
  const KIND_MAX: Byte := 17

  datatype Record = Record(kind: Byte, key: Bytes, value: Bytes)

  predicate HasValue(kind: Byte) {
    kind == SET || kind == MERGE || kind == RANGE_DELETE
  }

  predicate WellFormed(r: Record) {
    r.kind <= KIND_MAX && |r.key| < MAX_SIZE && |r.value| < MAX_SIZE && (!HasValue(r.kind) ==> r.value == [])
  }

  function EncodeStr(s: Bytes): Bytes {
    Varint(|s|) + s
  }

  function EncodeRecord(r: Record): (b: Bytes)
    ensures |b| >= 2
  {
    [r.kind] + (EncodeStr(r.key) + if HasValue(r.kind) then EncodeStr(r.value) else [])
  }

  function EncodeAll(rs: seq<Record>): Bytes {
    if rs == [] then [] else EncodeAll(rs[..|rs| - 1]) + EncodeRecord(rs[|rs| - 1])
  }

  // --- reading ---------------------------------------------------------------------

  /** A length and as many bytes, or nothing if they are not all there. */
  function DecodeStr(data: Bytes, p: nat): (r: Option<(Bytes, nat)>)
    ensures r.Some? ==> p < r.value.1 <= |data|
  {
    if !Readable(data, p) then None
    else
      var (v, q) := ReadUvarint(data, p);
      if q > |data| || v > |data| - q then None else Some((data[q..q + v], q + v))
  }

  /** The record at `p` and where it ends. */
  function NextRecord(data: Bytes, p: nat): (r: Option<(Record, nat)>)
    ensures r.Some? ==> p < r.value.1 <= |data|
  {
    if p >= |data| || data[p] > KIND_MAX then None
    else match DecodeStr(data, p + 1)
      case None => None
      case Some((key, q)) =>
        if !HasValue(data[p]) then Some((Record(data[p], key, []), q))
        else match DecodeStr(data, q)
          case None => None
          case Some((value, end)) => Some((Record(data[p], key, value), end))
  }

  lemma {:induction false} StrRoundTrip(data: Bytes, p: nat, s: Bytes)
    requires |s| < MAX_SIZE && At(data, p, EncodeStr(s))
    ensures DecodeStr(data, p) == Some((s, p + |EncodeStr(s)|))
  {
    hide Readable, ReadUvarint, Varint;
    AtSplit(data, p, Varint(|s|), s);
    VarintRoundTrip(data, p, |s|);
  }

  /** The parts of a record, one after the other. */
  lemma {:induction false} RecordSplits(data: Bytes, p: nat, r: Record)
    requires At(data, p, EncodeRecord(r))
    ensures p < |data| && data[p] == r.kind && At(data, p + 1, EncodeStr(r.key))
    ensures HasValue(r.kind) ==> At(data, p + 1 + |EncodeStr(r.key)|, EncodeStr(r.value))
    ensures |EncodeRecord(r)| == 1 + |EncodeStr(r.key)| + if HasValue(r.kind) then |EncodeStr(r.value)| else 0
  {
    hide EncodeStr;
    var value := if HasValue(r.kind) then EncodeStr(r.value) else [];
    AtSplit(data, p, [r.kind], EncodeStr(r.key) + value);
    AtSplit(data, p + 1, EncodeStr(r.key), value);
    assert data[p] == data[p..p + 1][0];
  }

  /** A record that was encoded is read back. */
  lemma {:induction false} RecordRoundTrip(data: Bytes, p: nat, r: Record)
    requires WellFormed(r) && At(data, p, EncodeRecord(r))
    ensures NextRecord(data, p) == Some((r, p + |EncodeRecord(r)|))
  {
    hide DecodeStr, EncodeStr, At, EncodeRecord;
    RecordSplits(data, p, r);
    StrRoundTrip(data, p + 1, r.key);
    if HasValue(r.kind) { StrRoundTrip(data, p + 1 + |EncodeStr(r.key)|, r.value); }
  }

  lemma {:induction false} EncodePrefix(rs: seq<Record>, n: nat)
    requires n <= |rs|
    ensures |EncodeAll(rs[..n])| <= |EncodeAll(rs)| && EncodeAll(rs)[..|EncodeAll(rs[..n])|] == EncodeAll(rs[..n])
  {
    if n < |rs| {
      EncodePrefix(rs[..|rs| - 1], n);
      assert rs[..|rs| - 1][..n] == rs[..n];
    } else {
      assert rs[..n] == rs;
    }
  }

  lemma {:induction false} RecordAt(rs: seq<Record>, i: nat)
    requires i < |rs|
    ensures At(EncodeAll(rs), |EncodeAll(rs[..i])|, EncodeRecord(rs[i]))
    ensures |EncodeAll(rs[..i + 1])| == |EncodeAll(rs[..i])| + |EncodeRecord(rs[i])|
  {
    hide EncodeRecord;
    var upTo := rs[..i + 1];
    assert upTo[..i] == rs[..i] && upTo[i] == rs[i];
    assert EncodeAll(upTo) == EncodeAll(rs[..i]) + EncodeRecord(rs[i]);
    AtEnd(EncodeAll(rs[..i]), EncodeRecord(rs[i]));
    EncodePrefix(rs, i + 1);
    AtTake(EncodeAll(rs), |EncodeAll(upTo)|, |EncodeAll(rs[..i])|, EncodeRecord(rs[i]));
  }

  /** The records that any bytes hold from `p` on, up to where no record can be read. */
  ghost function Decode(data: Bytes, p: nat): seq<Record>
    decreases |data| - p
  {
    match NextRecord(data, p)
    case None => []
    case Some((r, q)) => [r] + Decode(data, q)
  }

  /** Reads records until there is none to read. */
  method ReadAll(data: Bytes) returns (records: seq<Record>)
    ensures records == Decode(data, 0)
  {
    hide NextRecord;
    records := [];
    var p := 0;
    while true
      invariant p <= |data| && records + Decode(data, p) == Decode(data, 0)
      decreases |data| - p
    {
      var next := NextRecord(data, p);
      if next == None { return; }
      records := records + [next.value.0];
      p := next.value.1;
    }
  }

  /** Records that were encoded are read back. */
  lemma {:induction false} DecodeEncoded(rs: seq<Record>, i: nat)
    requires i <= |rs| && forall r :: r in rs ==> WellFormed(r)
    ensures Decode(EncodeAll(rs), |EncodeAll(rs[..i])|) == rs[i..]
    decreases |rs| - i
  {
    hide NextRecord, EncodeAll, EncodeRecord, WellFormed;
    var data := EncodeAll(rs);
    if i == |rs| {
      ReadEnds(rs, data);
    } else {
      DecodeEncoded(rs, i + 1);
      RecordAt(rs, i);
      RecordRoundTrip(data, |EncodeAll(rs[..i])|, rs[i]);
    }
  }

  lemma {:induction false} EncodeNone()
    ensures EncodeAll([]) == []
  {
  }

  lemma {:induction false} NotDone(rs: seq<Record>, i: nat)
    requires i <= |rs| && |EncodeAll(rs[..i])| < |EncodeAll(rs)|
    ensures i < |rs|
  {
    assert rs[..|rs|] == rs;
  }

  lemma {:induction false} AllRead(rs: seq<Record>, n: nat)
    requires n <= |rs| && |EncodeAll(rs[..n])| >= |EncodeAll(rs)|
    ensures rs[..n] == rs
  {
    if n < |rs| { LaterIsLonger(rs, n); }
  }

  lemma {:induction false} LaterIsLonger(rs: seq<Record>, n: nat)
    requires n < |rs|
    ensures |EncodeAll(rs[..n])| < |EncodeAll(rs)|
  {
    RecordAt(rs, n);
    EncodePrefix(rs, n + 1);
  }

  // --- what a batch needs in a memtable ------------------------------------------------

  const MAX_NODE_SIZE: nat := 176   // a skiplist node with its whole tower
  const ALIGN4: nat := 3

  /** memTableEntrySize, in the 32-bit arithmetic of arenaskl.MaxNodeSize. */
  function MemTableEntrySize(keyLen: nat, valueLen: nat): nat {
    (MAX_NODE_SIZE + keyLen + 8 + valueLen + ALIGN4) % 0x1_0000_0000
  }

  /** What a node for the record can take up. */
  function Need(r: Record): nat {
    MAX_NODE_SIZE + |r.key| + 8 + |r.value| + ALIGN4
  }

  /** Log data goes to the WAL only. */
  function Count(rs: seq<Record>): nat {
    if rs == [] then 0 else Count(rs[..|rs| - 1]) + if rs[|rs| - 1].kind == LOG_DATA then 0 else 1
  }

  function CountRangeDels(rs: seq<Record>): nat {
    if rs == [] then 0 else CountRangeDels(rs[..|rs| - 1]) + if rs[|rs| - 1].kind == RANGE_DELETE then 1 else 0
  }

  function SizeOf(rs: seq<Record>): nat {
    if rs == [] then 0
    else
      var r := rs[|rs| - 1];
      SizeOf(rs[..|rs| - 1]) + if r.kind == LOG_DATA then 0 else MemTableEntrySize(|r.key|, |r.value|)
  }

  function NeedOf(rs: seq<Record>): nat {
    if rs == [] then 0 else NeedOf(rs[..|rs| - 1]) + if rs[|rs| - 1].kind == LOG_DATA then 0 else Need(rs[|rs| - 1])
  }

  /** No record is so large that its size wraps around. */
  ghost predicate NoneWraps(rs: seq<Record>) {
    forall r :: r in rs && r.kind != LOG_DATA ==> Need(r) < 0x1_0000_0000
  }

  /** The sizes add up to the need exactly when none wraps around. */
  lemma {:induction false} SizeIsNeed(rs: seq<Record>)
    ensures SizeOf(rs) <= NeedOf(rs)
    ensures SizeOf(rs) == NeedOf(rs) <==> NoneWraps(rs)
  {
    if rs != [] {
      var front, last := rs[..|rs| - 1], rs[|rs| - 1];
      SizeIsNeed(front);
      assert rs == front + [last];
      assert NoneWraps(rs) <==> NoneWraps(front) && (last.kind == LOG_DATA || Need(last) < 0x1_0000_0000);
    }
  }

  /** A single record 187 bytes short of 4 GiB is counted as taking nothing. */
  lemma {:induction false} WrapsAround(r: Record)
    requires r.kind == SET && |r.key| == 0 && |r.value| == 0x1_0000_0000 - 187
    ensures SizeOf([r]) == 0 < NeedOf([r])
  {
    assert [r][..0] == [];
  }

  lemma {:induction false} AddRecord(rs: seq<Record>, r: Record)
    ensures EncodeAll(rs + [r]) == EncodeAll(rs) + EncodeRecord(r)
    ensures Count(rs + [r]) == Count(rs) + if r.kind == LOG_DATA then 0 else 1
    ensures CountRangeDels(rs + [r]) == CountRangeDels(rs) + if r.kind == RANGE_DELETE then 1 else 0
    ensures SizeOf(rs + [r]) == SizeOf(rs) + if r.kind == LOG_DATA then 0 else MemTableEntrySize(|r.key|, |r.value|)
  {
    assert (rs + [r])[..|rs|] == rs;
  }

  lemma {:induction false} AddRecords(a: seq<Record>, b: seq<Record>)
    ensures EncodeAll(a + b) == EncodeAll(a) + EncodeAll(b)
    ensures Count(a + b) == Count(a) + Count(b)
    ensures CountRangeDels(a + b) == CountRangeDels(a) + CountRangeDels(b)
    ensures SizeOf(a + b) == SizeOf(a) + SizeOf(b)
  {
    EncodeAppend(a, b);
    CountsAppend(a, b);
  }

  lemma {:induction false} EncodeAppend(a: seq<Record>, b: seq<Record>)
    ensures EncodeAll(a + b) == EncodeAll(a) + EncodeAll(b)
  {
    hide EncodeRecord;
    if b == [] {
      assert a + b == a;
    } else {
      EncodeAppend(a, b[..|b| - 1]);
      assert (a + b)[..|a + b| - 1] == a + b[..|b| - 1];
    }
  }

  lemma {:induction false} CountsAppend(a: seq<Record>, b: seq<Record>)
    ensures Count(a + b) == Count(a) + Count(b)
    ensures CountRangeDels(a + b) == CountRangeDels(a) + CountRangeDels(b)
    ensures SizeOf(a + b) == SizeOf(a) + SizeOf(b)
  {
    hide MemTableEntrySize;
    if b == [] {
      assert a + b == a;
    } else {
      CountsAppend(a, b[..|b| - 1]);
      assert (a + b)[..|a + b| - 1] == a + b[..|b| - 1];
    }
  }

  lemma {:induction false} CountSmall(rs: seq<Record>)
    ensures 2 * Count(rs) <= |EncodeAll(rs)|
  {
    hide EncodeRecord;
    if rs != [] { CountSmall(rs[..|rs| - 1]); }
  }

  /** The size with log data counted too, as Apply and refreshMemTableSize have it. */
  function SizeOfAll(rs: seq<Record>): (n: nat)
    ensures n >= SizeOf(rs)
  {
    if rs == [] then 0 else SizeOfAll(rs[..|rs| - 1]) + MemTableEntrySize(|rs[|rs| - 1].key|, |rs[|rs| - 1].value|)
  }

  /** Reads bytes for the size of the records they hold and the range deletions among them. */
  method Measure(data: Bytes) returns (size: nat, rangeDels: nat)
    ensures size == SizeOfAll(Decode(data, 0)) && rangeDels == CountRangeDels(Decode(data, 0))
  {
    hide NextRecord, MemTableEntrySize;
    size, rangeDels := 0, 0;
    var p := 0;
    ghost var read := [];
    while true
      invariant p <= |data| && read + Decode(data, p) == Decode(data, 0)
      invariant size == SizeOfAll(read) && rangeDels == CountRangeDels(read)
      decreases |data| - p
    {
      var next := NextRecord(data, p);
      if next == None { break; }
      var r := next.value.0;
      assert (read + [r])[..|read|] == read;
      size := size + MemTableEntrySize(|r.key|, |r.value|);
      if r.kind == RANGE_DELETE { rangeDels := rangeDels + 1; }
      p := next.value.1;
      read := read + [r];
    }
    assert read + [] == read;
  }

  lemma {:induction false} ReadEnds(rs: seq<Record>, data: Bytes)
    ensures rs[..|rs|] == rs && NextRecord(data, |data|) == None
  {
  }

  /** The sequence number in the header, or zero for a batch without bytes. */
  function SeqNum(data: Bytes): nat {
    if |data| < HEADER_LEN then 0 else GetLE(data[..8])
  }

  lemma {:induction false} SeqNumKept(data: Bytes, more: Bytes)
    requires |data| >= HEADER_LEN
    ensures SeqNum(data + more) == SeqNum(data)
  {
    assert (data + more)[..8] == data[..8];
  }

  lemma {:induction false} HoldsBoth(data: Bytes, count: nat, size: nat, rangeDels: nat, rs: seq<Record>,
                                     other: Bytes, otherCount: nat, otherSize: nat, otherDels: nat, others: seq<Record>, added: nat)
    requires HoldsRecords(data, count, size, rangeDels, rs)
    requires HoldsRecords(other, otherCount, otherSize, otherDels, others)
    requires data != [] && other != [] && added >= SizeOf(others) && |data| + |other| < MAX_SIZE
    ensures HoldsRecords(data + other[HEADER_LEN..], (count + otherCount) % 0x1_0000_0000, size + added,
                         rangeDels + otherDels, rs + others)
  {
    hide EncodeAll, WellFormed, SizeOf, Count, CountRangeDels;
    AddRecords(rs, others);
    CountSmall(rs);
    CountSmall(others);
    assert (data + other[HEADER_LEN..])[HEADER_LEN..] == data[HEADER_LEN..] + other[HEADER_LEN..];
  }

  /** The fields of a batch hold its records. */
  ghost predicate HoldsRecords(data: Bytes, count: nat, size: nat, rangeDels: nat, rs: seq<Record>) {
    && (data == [] ==> rs == []) && (data != [] ==> |data| >= HEADER_LEN && data[HEADER_LEN..] == EncodeAll(rs))
    && count == Count(rs) && size >= SizeOf(rs) && rangeDels == CountRangeDels(rs)
    && forall r :: r in rs ==> WellFormed(r)
  }

  lemma {:induction false} HoldsMore(data: Bytes, count: nat, size: nat, rangeDels: nat, rs: seq<Record>, r: Record)
    requires HoldsRecords(data, count, size, rangeDels, rs) && WellFormed(r) && data != []
    ensures HoldsRecords(data + EncodeRecord(r), if r.kind == LOG_DATA then count else count + 1,
                  if r.kind == LOG_DATA then size else size + MemTableEntrySize(|r.key|, |r.value|),
                  if r.kind == RANGE_DELETE then rangeDels + 1 else rangeDels, rs + [r])
    ensures SeqNum(data + EncodeRecord(r)) == SeqNum(data)
  {
    SeqNumKept(data, EncodeRecord(r));
    hide EncodeRecord, EncodeAll, WellFormed, SizeOf, Count, CountRangeDels, MemTableEntrySize;
    AddRecord(rs, r);
    assert (data + EncodeRecord(r))[HEADER_LEN..] == data[HEADER_LEN..] + EncodeRecord(r);
  }

  /** Bytes that encode the records and their count. */
  ghost predicate Encodes(repr: Bytes, rs: seq<Record>) {
    && |repr| >= HEADER_LEN && repr[HEADER_LEN..] == EncodeAll(rs) && GetLE(repr[8..12]) == Count(rs)
    && forall r :: r in rs ==> WellFormed(r)
  }

  lemma {:induction false} SizeOfNone()
    ensures SizeOfAll([]) == 0
  {
  }

  lemma {:induction false} EncodedDecodes(rs: seq<Record>)
    requires forall r :: r in rs ==> WellFormed(r)
    ensures Decode(EncodeAll(rs), 0) == rs && SizeOfAll(rs) >= SizeOf(rs)
  {
    hide WellFormed, Decode;
    DecodeEncoded(rs, 0);
    assert rs[..0] == [] && rs[0..] == rs;
  }

  lemma {:induction false} EncodedIsRead(repr: Bytes, rs: seq<Record>)
    requires Encodes(repr, rs)
    ensures Decode(repr[HEADER_LEN..], 0) == rs
  {
    hide WellFormed, Decode, EncodeAll;
    EncodedDecodes(rs);
  }

  class Batch {
    var data: Bytes
    var count: nat
    var memTableSize: nat
    var countRangeDels: nat
    ghost var records: seq<Record>

    ghost predicate Valid()
      reads this
    {
      HoldsRecords(data, count, memTableSize, countRangeDels, records)
    }

    constructor ()
      ensures Valid() && records == [] && data == [] && memTableSize == 0
    {
      data, count, memTableSize, countRangeDels, records := [], 0, 0, 0, [];
    }

    /** Zero for the sequence number. The count is filled in by Repr. */
    method Init()
      requires Valid() && data == []
      modifies this`data
      ensures Valid() && |data| == HEADER_LEN && SeqNum(data) == 0 == old(SeqNum(data))
    {
      data := PutLE(0, 8) + seq(4, _ => 0);
      assert data[HEADER_LEN..] == [] && data[..8] == PutLE(0, 8);
      LERoundTrip(0, 8);
    }

    method PutStr(s: Bytes)
      modifies this`data
      ensures data == old(data) + EncodeStr(s)
    {
      data := PutUvarint(data, |s|);
      data := data + s;
    }

    method AddKeyValue(kind: Byte, key: Bytes, value: Bytes)
      requires Valid() && HasValue(kind)
      requires |data| + HEADER_LEN + 1 + 10 + |key| + |value| < MAX_SIZE
      modifies this
      ensures Valid() && records == old(records) + [Record(kind, key, value)]
      ensures memTableSize == old(memTableSize) + MemTableEntrySize(|key|, |value|)
      ensures |data| == (if old(data) == [] then HEADER_LEN else old(|data|)) + |EncodeRecord(Record(kind, key, value))|
      ensures SeqNum(data) == old(SeqNum(data))
    {
      hide HoldsRecords, EncodeRecord, EncodeStr, GetLE;
      if |data| == 0 { Init(); }
      var r := Record(kind, key, value);
      HoldsMore(data, count, memTableSize, countRangeDels, records, r);
      EncodeRecordIs(r);
      ghost var before := data;
      count := count + 1;
      memTableSize := memTableSize + MemTableEntrySize(|key|, |value|);
      if kind == RANGE_DELETE { countRangeDels := countRangeDels + 1; }
      data := data + [kind];
      PutStr(key);
      PutStr(value);
      assert data == before + EncodeRecord(r);
      records := records + [r];
    }

    method AddKey(kind: Byte, key: Bytes)
      requires Valid() && !HasValue(kind) && kind <= KIND_MAX && kind != LOG_DATA
      requires |data| + HEADER_LEN + 1 + 5 + |key| < MAX_SIZE
      modifies this
      ensures Valid() && records == old(records) + [Record(kind, key, [])]
      ensures memTableSize == old(memTableSize) + MemTableEntrySize(|key|, 0) && SeqNum(data) == old(SeqNum(data))
    {
      hide HoldsRecords, EncodeRecord, EncodeStr, GetLE;
      if |data| == 0 { Init(); }
      var r := Record(kind, key, []);
      HoldsMore(data, count, memTableSize, countRangeDels, records, r);
      EncodeRecordIs(r);
      ghost var before := data;
      count := count + 1;
      memTableSize := memTableSize + MemTableEntrySize(|key|, 0);
      data := data + [kind];
      PutStr(key);
      assert data == before + EncodeRecord(r);
      records := records + [r];
    }

    /** Log data is added like a key and then taken back from the counters. */
    method LogData(log: Bytes)
      requires Valid() && |data| + HEADER_LEN + 1 + 5 + |log| < MAX_SIZE
      modifies this
      ensures Valid() && records == old(records) + [Record(LOG_DATA, log, [])] && memTableSize == old(memTableSize)
      ensures SeqNum(data) == old(SeqNum(data))
    {
      hide HoldsRecords, EncodeRecord, EncodeStr, GetLE;
      var origCount, origMemTableSize := count, memTableSize;
      if |data| == 0 { Init(); }
      var r := Record(LOG_DATA, log, []);
      HoldsMore(data, count, memTableSize, countRangeDels, records, r);
      EncodeRecordIs(r);
      ghost var before := data;
      count := count + 1;
      memTableSize := memTableSize + MemTableEntrySize(|log|, 0);
      data := data + [LOG_DATA];
      PutStr(log);
      count, memTableSize := origCount, origMemTableSize;
      assert data == before + EncodeRecord(r);
      records := records + [r];
    }

    /** Adds the records of another batch. */
    method Apply(batch: Batch)
      requires Valid() && batch.Valid() && batch != this && |data| + HEADER_LEN + |batch.data| < MAX_SIZE
      modifies this
      ensures Valid() && records == old(records) + batch.records
      ensures memTableSize == old(memTableSize) + SizeOfAll(batch.records) && SeqNum(data) == old(SeqNum(data))
    {
      hide EncodeAll, HoldsRecords, Decode, SizeOfAll, WellFormed, CountRangeDels, SeqNum;
      HoldsFacts(batch.data, batch.count, batch.memTableSize, batch.countRangeDels, batch.records);
      if |batch.data| == 0 {
        SizeOfNone();
        assert records + batch.records == records;
        return;
      }
      if |data| == 0 { Init(); }
      EncodedDecodes(batch.records);
      var added, dels := Measure(batch.data[HEADER_LEN..]);
      HoldsBoth(data, count, memTableSize, countRangeDels, records,
                batch.data, batch.count, batch.memTableSize, batch.countRangeDels, batch.records, added);
      HoldsFacts(data, count, memTableSize, countRangeDels, records);
      SeqNumKept(data, batch.data[HEADER_LEN..]);
      data := data + batch.data[HEADER_LEN..];
      count := (count + batch.count) % 0x1_0000_0000;
      countRangeDels := countRangeDels + dels;
      memTableSize := memTableSize + added;
      records := records + batch.records;
    }

    /** The bytes of the batch, with its count in the header. */
    method Repr() returns (repr: Bytes)
      requires Valid() && |data| < MAX_SIZE
      modifies this`data
      ensures Valid() && repr == data && Encodes(repr, records) && SeqNum(repr) == old(SeqNum(data))
    {
      if |data| == 0 { Init(); }
      CountSmall(records);
      assert Pow256(4) == 0x1_0000_0000;
      LERoundTrip(count, 4);
      ghost var before := data;
      data := data[..8] + PutLE(count, 4) + data[12..];
      assert data[..8] == before[..8] && data[8..12] == PutLE(count, 4) && data[12..] == before[12..];
      repr := data;
    }

    /** Takes over any bytes that are long enough for a header. What is counted is what can be read of them; if
        they encode as many records as the header says, the batch holds those. */
    method SetRepr(repr: Bytes) returns (ok: bool)
      requires Valid()
      modifies this
      ensures ok <==> |repr| >= HEADER_LEN
      ensures !ok ==> Valid() && data == old(data) && records == old(records) && memTableSize == old(memTableSize)
      ensures ok ==>
        && data == repr && count == GetLE(repr[8..12]) && records == Decode(repr[HEADER_LEN..], 0)
        && memTableSize == SizeOfAll(records) && countRangeDels == CountRangeDels(records)
      ensures ok && Encodes(repr, Decode(repr[HEADER_LEN..], 0)) ==> Valid()
    {
      if |repr| < HEADER_LEN { return false; }
      hide EncodeAll, WellFormed, SizeOf, Decode;
      data := repr;
      count := GetLE(repr[8..12]);
      memTableSize, countRangeDels := Measure(data[HEADER_LEN..]);
      records := Decode(repr[HEADER_LEN..], 0);
      ok := true;
    }

    method Set(key: Bytes, value: Bytes)
      requires Valid() && |data| + HEADER_LEN + 11 + |key| + |value| < MAX_SIZE
      modifies this
      ensures Valid() && records == old(records) + [Record(SET, key, value)]
    {
      AddKeyValue(SET, key, value);
    }

    method Merge(key: Bytes, value: Bytes)
      requires Valid() && |data| + HEADER_LEN + 11 + |key| + |value| < MAX_SIZE
      modifies this
      ensures Valid() && records == old(records) + [Record(MERGE, key, value)]
    {
      AddKeyValue(MERGE, key, value);
    }

    method DeleteRange(start: Bytes, end: Bytes)
      requires Valid() && |data| + HEADER_LEN + 11 + |start| + |end| < MAX_SIZE
      modifies this
      ensures Valid() && records == old(records) + [Record(RANGE_DELETE, start, end)]
    {
      AddKeyValue(RANGE_DELETE, start, end);
    }

    method Delete(key: Bytes)
      requires Valid() && |data| + HEADER_LEN + 6 + |key| < MAX_SIZE
      modifies this
      ensures Valid() && records == old(records) + [Record(DELETE, key, [])]
    {
      AddKey(DELETE, key);
    }

    method SingleDelete(key: Bytes)
      requires Valid() && |data| + HEADER_LEN + 6 + |key| < MAX_SIZE
      modifies this
      ensures Valid() && records == old(records) + [Record(SINGLE_DELETE, key, [])]
    {
      AddKey(SINGLE_DELETE, key);
    }
  }

  lemma {:induction false} HoldsFacts(data: Bytes, count: nat, size: nat, rangeDels: nat, rs: seq<Record>)
    requires HoldsRecords(data, count, size, rangeDels, rs)
    ensures data == [] ==> rs == []
    ensures data != [] ==> |data| >= HEADER_LEN && data[HEADER_LEN..] == EncodeAll(rs)
    ensures rangeDels == CountRangeDels(rs) && forall r :: r in rs ==> WellFormed(r)
  {
  }

  /** A batch survives being written out and read back. */
  method RoundTrip(batch: Batch) returns (copy: Batch)
    requires batch.Valid() && |batch.data| < MAX_SIZE
    modifies batch
    ensures fresh(copy) && copy.Valid() && batch.Valid() && copy.records == batch.records == old(batch.records)
    ensures SeqNum(copy.data) == old(SeqNum(batch.data))
  {
    hide Decode, Encodes, HoldsRecords;
    var repr := batch.Repr();
    copy := new Batch();
    EncodedIsRead(repr, batch.records);
    var _ := copy.SetRepr(repr);
  }

  lemma {:induction false} EncodeRecordIs(r: Record)
    ensures HasValue(r.kind) ==> EncodeRecord(r) == [r.kind] + (EncodeStr(r.key) + EncodeStr(r.value))
    ensures !HasValue(r.kind) ==> EncodeRecord(r) == [r.kind] + EncodeStr(r.key)
  {
    hide EncodeStr;
    assert EncodeStr(r.key) + [] == EncodeStr(r.key);
  }
}
