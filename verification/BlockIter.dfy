/** sstable/block.go: the block iterator, against a cursor over the indexes of the entries. */
module BlockIter {
  import opened Wrappers
  import opened BlockCodec

  type Compare = (Bytes, Bytes) -> int

  ghost predicate TotalOrder(cmp: Compare) {
    && (forall a, b :: cmp(a, b) < 0 <==> cmp(b, a) > 0)
    && (forall a, b, c :: cmp(a, b) <= 0 && cmp(b, c) <= 0 ==> cmp(a, c) <= 0)
  }

  /** User key ascending, then trailer descending. */
  function InternalCompare(cmp: Compare, a: InternalKey, b: InternalKey): int {
    var x := cmp(a.userKey, b.userKey);
    if x != 0 then x else if a.trailer > b.trailer then -1 else if a.trailer < b.trailer then 1 else 0
  }

  /** A total order, in which only the trailer tells keys with the same user key apart, newest first. */
  lemma {:induction false} CompareIsOrder(cmp: Compare, a: InternalKey, b: InternalKey, c: InternalKey)
    requires TotalOrder(cmp)
    ensures InternalCompare(cmp, a, b) < 0 <==> InternalCompare(cmp, b, a) > 0
    ensures InternalCompare(cmp, a, b) <= 0 && InternalCompare(cmp, b, c) <= 0 ==> InternalCompare(cmp, a, c) <= 0
    ensures InternalCompare(cmp, a, b) == 0 <==> cmp(a.userKey, b.userKey) == 0 && a.trailer == b.trailer
    ensures cmp(a.userKey, b.userKey) == 0 && a.trailer > b.trailer ==> InternalCompare(cmp, a, b) < 0
  {
    assert cmp(a.userKey, b.userKey) == 0 <==> cmp(b.userKey, a.userKey) == 0;
    if cmp(a.userKey, b.userKey) <= 0 && cmp(b.userKey, c.userKey) <= 0 && cmp(a.userKey, c.userKey) == 0 {
      assert cmp(c.userKey, a.userKey) <= 0;
      assert cmp(b.userKey, a.userKey) <= 0 && cmp(c.userKey, b.userKey) <= 0;
    }
  }

  /** The largest trailer: the maximal sequence number and the maximal kind. */
  const SEARCH_TRAILER: nat := 0xff_ffff_ffff_ffff * 256 + 17

  // --- the reference: a cursor over entry indexes -----------------------------------

  datatype Op = First | Last | SeekGE(key: Bytes) | SeekLT(key: Bytes) | Next | Prev

  type Item = (InternalKey, Bytes)

  /** How many entries at the front have a user key below `key`. */
  function Below(cmp: Compare, es: seq<Entry>, key: Bytes): (n: nat)
    ensures n <= |es|
  {
    if es == [] || cmp(DecodeInternalKey(es[0].key).userKey, key) >= 0 then 0 else 1 + Below(cmp, es[1..], key)
  }

  /** Positions run from -1, before the first entry, to `|es|`, after the last. */
  function Move(cmp: Compare, es: seq<Entry>, op: Op, pos: int): int {
    match op
    case First => 0
    case Last => |es| - 1
    case SeekGE(key) => Below(cmp, es, key)
    case SeekLT(key) => Below(cmp, es, key) - 1
    case Next => if pos < |es| then pos + 1 else pos
    case Prev => if pos >= 0 then pos - 1 else pos
  }

  function ItemAt(es: seq<Entry>, pos: int): Option<Item> {
    if 0 <= pos < |es| then Some((DecodeInternalKey(es[pos].key), es[pos].value)) else None
  }

  // --- what is required of a block --------------------------------------------------

  function UserKey(l: Layout, i: nat): Bytes
    requires i < |l.entries|
  {
    DecodeInternalKey(l.entries[i].key).userKey
  }

  predicate KeyOk(l: Layout, i: nat)
    requires i < |l.entries|
  {
    |l.entries[i].key| >= 8 && DecodeInternalKey(l.entries[i].key).trailer <= SEARCH_TRAILER
  }

  ghost predicate InOrder(cmp: Compare, l: Layout, i: nat, j: nat)
    requires i < |l.entries| && j < |l.entries|
  {
    InternalCompare(cmp, DecodeInternalKey(l.entries[i].key), DecodeInternalKey(l.entries[j].key)) < 0
  }

  /** A block of internal keys in strictly increasing order, whose offsets fit in 32 bits. */
  ghost predicate Good(cmp: Compare, l: Layout)
    ensures Good(cmp, l) ==> TotalOrder(cmp) && l.Valid()
  {
    && TotalOrder(cmp) && l.Valid() && |l.Block()| < 0x8000_0000
    && (forall i: nat {:trigger KeyOk(l, i)} :: i < |l.entries| ==> KeyOk(l, i))
    && (forall i: nat, j: nat {:trigger InOrder(cmp, l, i, j)} :: i < j < |l.entries| ==> InOrder(cmp, l, i, j))
  }

  lemma {:induction false} OffsetsIncrease(l: Layout, i: nat, j: nat)
    requires l.Valid() && i <= j <= |l.entries|
    ensures l.Offset(i) <= l.Offset(j) && (i < j ==> l.Offset(i) < l.Offset(j))
  {
    BodyGrows(l, i, j);
  }

  lemma {:induction false} StartsIncrease(l: Layout, q: nat, r: nat)
    requires l.Valid() && q < r < |l.starts|
    ensures l.starts[q] < l.starts[r] < |l.entries|
    decreases r
  {
    assert l.StartOk(r);
    if q < r - 1 { StartsIncrease(l, q, r - 1); }
  }

  /** Entry `i` is below the user key sought. */
  ghost predicate IsBelow(cmp: Compare, l: Layout, key: Bytes, i: nat)
    requires i < |l.entries|
  {
    cmp(UserKey(l, i), key) < 0
  }

  lemma {:induction false} LessTransitive(cmp: Compare, a: Bytes, b: Bytes, c: Bytes)
    requires TotalOrder(cmp)
    ensures cmp(a, b) <= 0 && cmp(b, c) < 0 ==> cmp(a, c) < 0
    ensures cmp(a, b) < 0 && cmp(b, c) <= 0 ==> cmp(a, c) < 0
  {
    assert cmp(c, a) <= 0 && cmp(a, b) <= 0 ==> cmp(c, b) <= 0;
    assert cmp(b, c) <= 0 && cmp(c, a) <= 0 ==> cmp(b, a) <= 0;
  }

  lemma {:induction false} BelowIsPrefix(cmp: Compare, l: Layout, key: Bytes, i: nat, j: nat)
    requires Good(cmp, l) && i < j < |l.entries| && IsBelow(cmp, l, key, j)
    ensures IsBelow(cmp, l, key, i)
  {
    assert InOrder(cmp, l, i, j);
    LessTransitive(cmp, UserKey(l, i), UserKey(l, j), key);
  }

  /** A restart key at or before the search key leaves only smaller entries before it. */
  lemma {:induction false} BeforePast(cmp: Compare, l: Layout, key: Bytes, i: nat, j: nat)
    requires Good(cmp, l) && j < i < |l.entries|
    requires InternalCompare(cmp, InternalKey(key, SEARCH_TRAILER), DecodeInternalKey(l.entries[i].key)) >= 0
    ensures IsBelow(cmp, l, key, j)
  {
    assert InOrder(cmp, l, j, i) && KeyOk(l, i) && KeyOk(l, j);
    LessTransitive(cmp, UserKey(l, j), UserKey(l, i), key);
  }

  /** The search key has the largest trailer, so only user keys matter. */
  lemma {:induction false} SearchIsBelow(cmp: Compare, l: Layout, key: Bytes, i: nat)
    requires Good(cmp, l) && i < |l.entries|
    ensures var k := DecodeInternalKey(l.entries[i].key); var s := InternalKey(key, SEARCH_TRAILER);
      && (InternalCompare(cmp, k, s) < 0 <==> IsBelow(cmp, l, key, i))
      && (InternalCompare(cmp, s, k) > 0 <==> IsBelow(cmp, l, key, i))
  {
    assert KeyOk(l, i);
  }

  /** The key sought is past the restart point of an empty block, whose key reads as empty, just when it is above that. */
  lemma {:induction false} SearchPastNothing(cmp: Compare, key: Bytes)
    requires TotalOrder(cmp)
    ensures InternalCompare(cmp, InternalKey(key, SEARCH_TRAILER), DecodeInternalKey([])) > 0 <==> cmp(key, []) > 0
    ensures cmp(key, []) > 0 <==> cmp([], key) < 0
  {
  }

  /** `Below` splits the entries where the search key falls. */
  lemma {:induction false} BelowIs(cmp: Compare, l: Layout, key: Bytes, n: nat)
    requires n <= |l.entries|
    requires forall i: nat {:trigger IsBelow(cmp, l, key, i)} :: i < n ==> IsBelow(cmp, l, key, i)
    requires n < |l.entries| ==> !IsBelow(cmp, l, key, n)
    ensures Below(cmp, l.entries, key) == n
  {
    BelowFrom(cmp, l, key, n, 0);
    assert l.entries[0..] == l.entries;
  }

  lemma {:induction false} BelowFrom(cmp: Compare, l: Layout, key: Bytes, n: nat, i: nat)
    requires i <= n <= |l.entries|
    requires forall i: nat {:trigger IsBelow(cmp, l, key, i)} :: i < n ==> IsBelow(cmp, l, key, i)
    requires n < |l.entries| ==> !IsBelow(cmp, l, key, n)
    ensures Below(cmp, l.entries[i..], key) == n - i
    decreases n - i
  {
    if i < n {
      assert IsBelow(cmp, l, key, i);
      BelowFrom(cmp, l, key, n, i + 1);
      assert l.entries[i..][1..] == l.entries[i + 1..];
    } else if n < |l.entries| {
      assert l.entries[i..][0] == l.entries[n];
    }
  }

  // --- the restart points -----------------------------------------------------------

  predicate RestartReadable(data: Bytes, offset: nat) {
    && Readable(data, offset + 1) && Readable(data, ReadUvarint(data, offset + 1).1)
    && ReadUvarint(data, ReadUvarint(data, offset + 1).1).1 + ReadUvarint(data, offset + 1).0 <= |data|
  }

  /** The key at a restart point: its shared length is the one byte 0, and the length of its value is skipped. */
  function RestartKey(data: Bytes, offset: nat): Bytes
    requires RestartReadable(data, offset)
  {
    var (v1, p1) := ReadUvarint(data, offset + 1);
    var p2 := ReadUvarint(data, p1).1;
    data[p2..p2 + v1]
  }

  lemma {:induction false} RestartKeyIs(l: Layout, r: nat)
    requires l.Valid() && r < |l.starts|
    ensures l.StartOk(r)
    ensures RestartReadable(l.Block(), l.Offset(l.starts[r]))
    ensures RestartKey(l.Block(), l.Offset(l.starts[r])) == l.entries[l.starts[r]].key
  {
    assert l.StartOk(r);
    var i := l.starts[r];
    var h := EntryRoundTrip(l, i);
    hide Layout.Block, Layout.Offset, Readable;
    ZeroIsOneByte(l, i);
    assert l.entries[i].key[0..] == l.entries[i].key;
  }

  lemma {:induction false} ZeroIsOneByte(l: Layout, i: nat)
    requires l.Valid() && i < |l.entries| && l.shared[i] == 0
    ensures Readable(l.Block(), l.Offset(i)) && ReadUvarint(l.Block(), l.Offset(i)) == (0, l.Offset(i) + 1)
  {
    hide Layout.Block, Layout.Offset, At, Readable, ReadUvarint;
    assert l.SharedOk(i);
    EntryAt(l, i);
    var e := l.entries[i];
    AtSplit(l.Block(), l.Offset(i), Varint(0) + Varint(|e.key|) + Varint(|e.value|), e.key[0..] + e.value);
    AtSplit(l.Block(), l.Offset(i), Varint(0) + Varint(|e.key|), Varint(|e.value|));
    AtSplit(l.Block(), l.Offset(i), Varint(0), Varint(|e.key|));
    VarintRoundTrip(l.Block(), l.Offset(i), 0);
  }

  lemma {:induction false} EmptyBlock(l: Layout)
    requires l.Valid() && l.entries == []
    ensures l.Block() == [0, 0, 0, 0, 1, 0, 0, 0] && l.Offset(0) == 0 && l.Restarts() == [0]
  {
    hide PutLE;
    SmallLE();
    OneRestart();
    assert l.Body(0) == [];
  }

  lemma {:induction false} SmallLE()
    ensures PutLE(0, 4) == [0, 0, 0, 0] && PutLE(1, 4) == [1, 0, 0, 0]
  {
    assert PutLE(0, 0) == [] && PutLE(0, 1) == [0] && PutLE(0, 2) == [0, 0] && PutLE(0, 3) == [0, 0, 0];
  }

  lemma {:induction false} OneRestart()
    ensures EncodeRestarts([0]) == PutLE(0, 4)
  {
    hide PutLE;
    assert [0][..0] == [] && [] + PutLE(0, 4) == PutLE(0, 4);
    assert EncodeRestarts([0]) == EncodeRestarts([0][..0]) + PutLE(0, 4);
  }

  lemma {:induction false} EmptyBlockRestart(l: Layout)
    requires l.Valid() && l.entries == []
    ensures RestartReadable(l.Block(), 0) && RestartKey(l.Block(), 0) == []
  {
    EmptyBlock(l);
    hide Layout.Block, Layout.Valid;
  }

  /** What the binary searches read about restart point `r`. */
  lemma {:induction false} RestartIs(cmp: Compare, l: Layout, r: nat)
    requires Good(cmp, l) && r < |l.Restarts()|
    ensures var data := l.Block(); var end := l.Offset(|l.entries|);
      && end + 4 * r + 4 <= |data| && RestartAt(data, end, r) == l.Restarts()[r]
      && RestartReadable(data, l.Restarts()[r])
      && (l.entries != [] ==> r < |l.starts| && l.StartOk(r) && l.Restarts()[r] == l.Offset(l.starts[r])
                              && RestartKey(data, l.Restarts()[r]) == l.entries[l.starts[r]].key)
      && (l.entries == [] ==> r == 0 && l.Restarts()[r] == 0 && RestartKey(data, 0) == [])
  {
    hide TotalOrder, InOrder, RestartReadable, RestartKey, Layout.Block;
    BlockRoundTrip(l);
    if l.entries == [] {
      EmptyBlock(l);
      EmptyBlockRestart(l);
    } else {
      RestartKeyIs(l, r);
    }
  }

  // --- the cache of reverse iteration -----------------------------------------------

  datatype CacheEntry = CacheEntry(offset: nat, keyStart: nat, keyEnd: nat, valStart: nat, valSize: nat)

  ghost predicate IsCached(l: Layout, data: Bytes, c: CacheEntry, buf: Bytes, i: int) {
    && l.Valid() && 0 <= i < |l.entries| && c.offset == l.Offset(i)
    && c.keyStart <= c.keyEnd <= |buf| && buf[c.keyStart..c.keyEnd] == l.entries[i].key
    && c.valStart + c.valSize <= |data| && data[c.valStart..c.valStart + c.valSize] == l.entries[i].value
  }

  /** The cache holds the entries just before entry `i`. */
  ghost predicate CacheOk(l: Layout, data: Bytes, cached: seq<CacheEntry>, buf: Bytes, i: int)
    ensures cached == [] ==> CacheOk(l, data, cached, buf, i)
  {
    && (cached != [] ==> buf != [])
    && forall j: nat {:trigger cached[j]} :: j < |cached| ==> IsCached(l, data, cached[j], buf, i - |cached| + j)
  }

  lemma {:induction false} CachePush(
      l: Layout, data: Bytes, cached: seq<CacheEntry>, buf: Bytes, i: int, c: CacheEntry, key: Bytes)
    requires CacheOk(l, data, cached, buf, i) && IsCached(l, data, c, buf + key, i) && key != []
    ensures CacheOk(l, data, cached + [c], buf + key, i + 1)
  {
    forall j: nat | j < |cached| + 1 ensures IsCached(l, data, (cached + [c])[j], buf + key, i - |cached| + j) {
      if j < |cached| {
        var d := cached[j];
        assert IsCached(l, data, d, buf, i - |cached| + j);
        assert (buf + key)[d.keyStart..d.keyEnd] == buf[d.keyStart..d.keyEnd];
      }
    }
  }

  lemma {:induction false} CachePop(l: Layout, data: Bytes, cached: seq<CacheEntry>, buf: Bytes, i: int)
    requires CacheOk(l, data, cached, buf, i) && cached != []
    ensures IsCached(l, data, cached[|cached| - 1], buf, i - 1)
    ensures CacheOk(l, data, cached[..|cached| - 1], buf, i - 1)
  {
  }

  /** What is in `fullKey` serves to decode entry `i`. */
  ghost predicate Prefixes(l: Layout, fullKey: Bytes, i: nat)
    requires l.Valid() && i < |l.entries|
  {
    l.shared[i] == 0 || (i > 0 && fullKey == l.entries[i - 1].key)
  }

  lemma {:induction false} PrefixesNext(l: Layout, fullKey: Bytes, i: nat)
    requires l.Valid() && i < |l.entries|
    ensures l.shared[i] == 0 ==> Prefixes(l, fullKey, i)
    ensures i > 0 && fullKey == l.entries[i - 1].key ==> Prefixes(l, fullKey, i)
  {
  }

  lemma {:induction false} LoadIs(l: Layout, fullKey: Bytes, i: nat) returns (h: Header)
    requires l.Valid() && i < |l.entries| && Prefixes(l, fullKey, i)
    ensures HeaderReadable(l.Block(), l.Offset(i)) && h == ReadHeader(l.Block(), l.Offset(i))
    ensures h.shared <= |fullKey| && h.keyStart + h.unshared + h.valSize == l.Offset(i + 1) <= |l.Block()|
    ensures fullKey[..h.shared] + l.Block()[h.keyStart..h.keyStart + h.unshared] == l.entries[i].key
    ensures l.Block()[h.keyStart + h.unshared..h.keyStart + h.unshared + h.valSize] == l.entries[i].value
  {
    hide Layout.Block, Layout.Offset, HeaderReadable, ReadHeader;
    assert l.SharedOk(i);
    h := EntryRoundTrip(l, i);
    assert l.entries[i].key[..h.shared] + l.entries[i].key[h.shared..] == l.entries[i].key;
  }

  class Iterator {
    const cmp: Compare
    const data: Bytes
    const restarts: nat
    const numRestarts: nat
    ghost const layout: Layout
    var offset: int
    var nextOffset: nat
    var key: Bytes
    var fullKey: Bytes
    var valStart: nat
    var valSize: nat
    var ikey: InternalKey
    var cached: seq<CacheEntry>
    var cachedBuf: Bytes
    ghost var pos: int

    ghost predicate Fixed() {
      && Good(cmp, layout) && data == layout.Block()
      && restarts == layout.Offset(|layout.entries|) && numRestarts == |layout.Restarts()|
    }

    /** Entry `i` has been read. */
    ghost predicate On(i: int)
      reads this
    {
      && layout.Valid() && 0 <= i < |layout.entries|
      && offset == layout.Offset(i) && nextOffset == layout.Offset(i + 1) && key == layout.entries[i].key
      && valStart + valSize <= |data| && data[valStart..valStart + valSize] == layout.entries[i].value
      && CacheOk(layout, data, cached, cachedBuf, i)
    }

    ghost predicate Valid()
      reads this
    {
      && Fixed() && -1 <= pos <= |layout.entries|
      && if layout.entries == [] then
           && cached == [] && cachedBuf == []
           && (|| (offset == 0 && (nextOffset == 0 || nextOffset == 3))
               || (offset == 3 && nextOffset == 3)
               || (offset == -1 && nextOffset == 0))
         else if pos == -1 then
           offset <= 0 && nextOffset == 0 && cached == [] && cachedBuf == []
         else if pos == |layout.entries| then
           offset == nextOffset == restarts && cached == [] && cachedBuf == []
         else
           On(pos) && ikey == DecodeInternalKey(key) && (cachedBuf == [] ==> fullKey == key)
    }

    /** A new iterator stands before the first entry. */
    constructor (cmp: Compare, block: Bytes, ghost layout: Layout)
      requires Good(cmp, layout) && block == layout.Block()
      ensures Valid() && this.cmp == cmp && this.layout == layout && pos == -1 && offset == nextOffset == 0
    {
      BlockRoundTrip(layout);
      if layout.entries == [] { EmptyBlock(layout); }
      var n := GetLE(block[|block| - 4..]);
      this.cmp, this.data, this.layout := cmp, block, layout;
      numRestarts := n;
      restarts := |block| - 4 * (1 + n);
      offset, nextOffset, key, fullKey, valStart, valSize := 0, 0, [], [], 0, 0;
      ikey := InternalKey([], 0);
      cached, cachedBuf := [], [];
      pos := -1;
    }

    predicate IsValid()
      reads this
    {
      0 <= offset < restarts
    }

    method ReadEntry()
      requires 0 <= offset && HeaderReadable(data, offset)
      requires var h := ReadHeader(data, offset); h.shared <= |fullKey| && h.keyStart + h.unshared + h.valSize <= |data|
      modifies this`fullKey, this`key, this`valStart, this`valSize, this`nextOffset
      ensures var h := ReadHeader(data, offset);
        && key == fullKey == old(fullKey)[..h.shared] + data[h.keyStart..h.keyStart + h.unshared]
        && valStart == h.keyStart + h.unshared && valSize == h.valSize && nextOffset == valStart + valSize
    {
      var h := ReadHeader(data, offset);
      var unsharedKey := data[h.keyStart..h.keyStart + h.unshared];
      fullKey := fullKey[..h.shared] + unsharedKey;
      key := if h.shared == 0 then unsharedKey else fullKey;
      valStart, valSize := h.keyStart + h.unshared, h.valSize;
      nextOffset := valStart + h.valSize;
    }

    /** What an empty block reads as: the bytes of its restart array. */
    ghost predicate OnEmpty()
      reads this
    {
      nextOffset == 3 && key == [] && fullKey == [] && valStart == 3 && valSize == 0 && |data| == 8
    }

    lemma {:induction false} EmptyHeader()
      requires Fixed() && layout.entries == []
      ensures |data| == 8 && restarts == 0 && numRestarts == 1
      ensures HeaderReadable(data, 0) && ReadHeader(data, 0) == Header(0, 0, 0, 3)
    {
      EmptyBlock(layout);
    }

    /** Reads entry `i`, which shares nothing or follows the entry in `fullKey`. */
    method Load(ghost i: nat)
      requires Fixed()
      requires layout.entries == [] ==> offset == 0
      requires layout.entries != [] ==>
                 && i < |layout.entries| && offset == layout.Offset(i) && Prefixes(layout, fullKey, i)
                 && CacheOk(layout, data, cached, cachedBuf, i)
      modifies this`fullKey, this`key, this`valStart, this`valSize, this`nextOffset
      ensures if layout.entries == [] then OnEmpty() else On(i) && fullKey == key
    {
      hide TotalOrder, IsBelow, Layout.Block, Layout.Offset, Layout.Valid, Layout.Restarts, CacheOk, HeaderReadable,
           ReadHeader, Prefixes;
      ghost var h;
      if layout.entries == [] { EmptyHeader(); } else { h := LoadIs(layout, fullKey, i); }
      ReadEntry();
    }

    method ClearCache()
      modifies this`cached, this`cachedBuf
      ensures cached == [] && cachedBuf == []
    {
      cached, cachedBuf := [], [];
    }

    /** Appends the current entry to the cache. */
    method CacheEntryNow(ghost i: nat)
      requires Fixed() && On(i)
      modifies this`cached, this`cachedBuf
      ensures CacheOk(layout, data, cached, cachedBuf, i + 1) && |cached| == old(|cached|) + 1
    {
      hide TotalOrder, IsBelow, Layout.Block, Layout.Offset, Layout.Valid, Layout.Restarts, CacheOk;
      assert KeyOk(layout, i);
      var start := if valSize > 0 then valStart else 0;
      var c := CacheEntry(offset, |cachedBuf|, |cachedBuf| + |key|, start, valSize);
      CachePush(layout, data, cached, cachedBuf, i, c, key);
      cached := cached + [c];
      cachedBuf := cachedBuf + key;
    }

    /** From entry `i` on, reads and caches entries up to the one that ends at `target`. */
    method ScanTo(target: nat, ghost i: nat, ghost k: int)
      requires Fixed()
      requires layout.entries == [] ==> OnEmpty() && target <= 3
      requires layout.entries != [] ==>
                 On(i) && fullKey == key && cached == [] && i < k <= |layout.entries| && target == layout.Offset(k)
      modifies this
      ensures pos == old(pos)
      ensures if layout.entries == [] then OnEmpty() && unchanged(this) else On(k - 1) && fullKey == key
    {
      hide TotalOrder, IsBelow, Layout.Block, Layout.Offset, Layout.Valid, Layout.Restarts, CacheOk;
      ghost var j := i;
      if layout.entries != [] { OffsetsIncrease(layout, j + 1, k); }
      while nextOffset < target
        invariant layout.entries == [] ==> OnEmpty() && unchanged(this)
        invariant layout.entries != [] ==> i <= j < k && On(j) && fullKey == key && (nextOffset < target <==> j + 1 < k)
        invariant pos == old(pos)
        decreases k - j
      {
        CacheEntryNow(j);
        offset := nextOffset;
        j := j + 1;
        Load(j);
        OffsetsIncrease(layout, j + 1, k);
      }
    }

    /** `target` lies past the key of restart point `r`, or on it if `orOn`. */
    ghost predicate Past(target: InternalKey, orOn: bool, r: nat)
      requires Fixed() && r < numRestarts
    {
      RestartIs(cmp, layout, r);
      var c := InternalCompare(cmp, target, DecodeInternalKey(RestartKey(data, RestartAt(data, restarts, r))));
      c > 0 || (orOn && c == 0)
    }

    /** The first restart point that `target` is not past. */
    method SearchRestarts(target: InternalKey, orOn: bool) returns (index: nat)
      requires Fixed()
      ensures index <= numRestarts && (index > 0 ==> Past(target, orOn, index - 1))
      ensures (index < numRestarts ==> !Past(target, orOn, index))
    {
      hide TotalOrder, IsBelow, Layout.Block, Layout.Offset, Layout.Valid, Layout.Restarts, RestartReadable,
           RestartKey, RestartAt, InternalCompare, DecodeInternalKey;
      index := 0;
      var upper := numRestarts;
      while index < upper
        invariant index <= upper <= numRestarts
        invariant (index > 0 ==> Past(target, orOn, index - 1)) && (upper < numRestarts ==> !Past(target, orOn, upper))
      {
        var h := (index + upper) / 2;
        RestartIs(cmp, layout, h);
        var k := DecodeInternalKey(RestartKey(data, RestartAt(data, restarts, h)));
        var c := InternalCompare(cmp, target, k);
        if c > 0 || (orOn && c == 0) {
          index := h + 1;
        } else {
          upper := h;
        }
      }
    }

    /** The first restart point at or after `target`. */
    method SearchOffsets(target: nat) returns (index: nat)
      requires Fixed()
      ensures index <= numRestarts
      ensures index > 0 ==> layout.Restarts()[index - 1] < target
      ensures index < numRestarts ==> layout.Restarts()[index] >= target
    {
      hide TotalOrder, IsBelow, Layout.Block, Layout.Offset, Layout.Valid, Layout.Restarts, RestartReadable,
           RestartKey, RestartAt, InternalCompare, DecodeInternalKey;
      index := 0;
      var upper := numRestarts;
      while index < upper
        invariant index <= upper <= numRestarts
        invariant index > 0 ==> layout.Restarts()[index - 1] < target
        invariant upper < numRestarts ==> layout.Restarts()[upper] >= target
      {
        var h := (index + upper) / 2;
        RestartIs(cmp, layout, h);
        if RestartAt(data, restarts, h) < target {
          index := h + 1;
        } else {
          upper := h;
        }
      }
    }

    function Current(): Item
      requires valStart + valSize <= |data|
      reads this
    {
      (ikey, data[valStart..valStart + valSize])
    }

    method First() returns (r: Option<Item>)
      requires Valid()
      modifies this
      ensures Valid()
      ensures layout.entries == [] ==> r == None && offset == 0 && nextOffset == old(nextOffset)
      ensures layout.entries != [] ==>
        pos == Move(cmp, layout.entries, Op.First, old(pos)) && r == ItemAt(layout.entries, pos)
    {
      hide Good, TotalOrder, IsBelow, Layout.Block, Layout.Valid, Layout.Restarts, Layout.Offset, DecodeInternalKey;
      StartIsRestart();
      offset := 0;
      if !IsValid() { return None; }
      ClearCache();
      Load(0);
      ikey := DecodeInternalKey(key);
      pos := 0;
      r := Some(Current());
    }

    /** The block starts at offset 0 with a restart point, and is empty only if it ends there. */
    lemma {:induction false} StartIsRestart()
      requires Fixed()
      ensures layout.Offset(0) == 0 && (restarts == 0 <==> layout.entries == [])
      ensures layout.entries != [] ==> layout.shared[0] == 0
    {
      if layout.entries != [] {
        assert layout.StartOk(0);
        OffsetsIncrease(layout, 0, |layout.entries|);
      }
    }

    method Last() returns (r: Option<Item>)
      requires Valid()
      modifies this
      ensures Valid()
      ensures layout.entries == [] ==> r == None && offset == 0 && nextOffset == old(nextOffset)
      ensures layout.entries != [] ==>
        pos == Move(cmp, layout.entries, Op.Last, old(pos)) && r == ItemAt(layout.entries, pos)
    {
      hide TotalOrder, InOrder, Layout.Block, Layout.Valid, Layout.Restarts, Layout.Offset, RestartAt,
           RestartReadable, RestartKey, DecodeInternalKey;
      StartIsRestart();
      RestartIs(cmp, layout, numRestarts - 1);
      if layout.entries != [] { OffsetsIncrease(layout, layout.starts[numRestarts - 1], |layout.entries|); }
      offset := RestartAt(data, restarts, numRestarts - 1);
      if !IsValid() {
        return None;
      }
      ghost var i := layout.starts[numRestarts - 1];
      ClearCache();
      Load(i);
      ScanTo(restarts, i, |layout.entries|);
      ikey := DecodeInternalKey(key);
      pos := |layout.entries| - 1;
      r := Some(Current());
    }

    method Next() returns (r: Option<Item>)
      requires Valid()
      modifies this
      ensures Valid()
      ensures layout.entries == [] ==> r == None && offset == nextOffset == old(nextOffset)
      ensures layout.entries != [] ==>
        pos == Move(cmp, layout.entries, Op.Next, old(pos)) && r == ItemAt(layout.entries, pos)
    {
      hide Good, TotalOrder, IsBelow, Layout.Block, Layout.Valid, Layout.Restarts, Layout.Offset, DecodeInternalKey;
      StartIsRestart();
      if |cachedBuf| > 0 {
        fullKey := key;
        ClearCache();
      }
      offset := nextOffset;
      ghost var i := if pos < |layout.entries| then pos + 1 else pos;
      OffsetsIncrease(layout, i, |layout.entries|);
      if !IsValid() {
        if layout.entries != [] { pos := i; }
        return None;
      }
      Load(i);
      ikey := DecodeInternalKey(key);
      pos := i;
      r := Some(Current());
    }

    /** On an empty block Prev returns an entry exactly when `offset` has moved past 0. */
    method Prev() returns (r: Option<Item>)
      requires Valid()
      modifies this
      ensures Valid()
      ensures layout.entries == [] ==> offset <= 0
      ensures layout.entries == [] && old(offset) <= 0 ==> r == None && nextOffset == 0
      ensures layout.entries == [] && old(offset) > 0 ==>
        r == Some((InternalKey([], KIND_INVALID), [])) && nextOffset == 3
      ensures layout.entries != [] ==>
        pos == Move(cmp, layout.entries, Op.Prev, old(pos)) && r == ItemAt(layout.entries, pos)
    {
      hide Good, TotalOrder, IsBelow, Layout.Block, Layout.Valid, Layout.Restarts, Layout.Offset, DecodeInternalKey;
      if |cached| > 0 {
        r := PrevCached();
        return;
      }
      ClearCache();
      StartIsRestart();
      if 0 < pos <= |layout.entries| { OffsetsIncrease(layout, 0, pos); }
      if offset <= 0 {
        offset := -1;
        nextOffset := 0;
        if layout.entries != [] { pos := -1; }
        return None;
      }
      r := PrevRestart();
    }

    /** Prev with the entry before in the cache. */
    method PrevCached() returns (r: Option<Item>)
      requires Valid() && cached != []
      modifies this
      ensures Valid() && layout.entries != [] && pos == old(pos) - 1 >= 0 && r == ItemAt(layout.entries, pos)
    {
      hide Good, TotalOrder, IsBelow, Layout.Block, Layout.Valid, Layout.Restarts, Layout.Offset, DecodeInternalKey;
      var n := |cached| - 1;
      CachePop(layout, data, cached, cachedBuf, pos);
      hide CacheOk;
      nextOffset := offset;
      var e := cached[n];
      offset := e.offset;
      valStart, valSize := e.valStart, e.valSize;
      key := cachedBuf[e.keyStart..e.keyEnd];
      ikey := DecodeInternalKey(key);
      cached := cached[..n];
      pos := pos - 1;
      r := Some(Current());
    }

    /** Goes to the restart point before number `index`, or to the start of the block, and reads the entry there. */
    method ToRestart(index: nat) returns (ghost i: nat)
      requires Fixed() && index <= numRestarts && cached == [] && cachedBuf == []
      modifies this`offset, this`fullKey, this`key, this`valStart, this`valSize, this`nextOffset
      ensures layout.entries == [] ==> OnEmpty() && offset == 0
      ensures layout.entries != [] ==> On(i) && fullKey == this.key && index <= |layout.starts|
      ensures layout.entries != [] ==> i == if index == 0 then 0 else layout.starts[index - 1]
      ensures layout.entries != [] && index > 0 ==> layout.Restarts()[index - 1] == layout.Offset(i)
    {
      hide Good, TotalOrder, IsBelow, Layout.Block, Layout.Valid, Layout.Restarts, Layout.Offset, RestartReadable,
           RestartKey, RestartAt, DecodeInternalKey, InternalCompare;
      StartIsRestart();
      i := 0;
      offset := 0;
      if index > 0 {
        RestartIs(cmp, layout, index - 1);
        offset := RestartAt(data, restarts, index - 1);
        if layout.entries != [] { i := layout.starts[index - 1]; }
      }
      Load(i);
    }

    /** Everything before a restart point that the key is past is below the key. */
    lemma {:induction false} AllBefore(key: Bytes, index: nat)
      requires Fixed() && layout.entries != [] && 0 < index <= numRestarts
      requires Past(InternalKey(key, SEARCH_TRAILER), true, index - 1)
      ensures index <= |layout.starts|
      ensures forall j: nat {:trigger IsBelow(cmp, layout, key, j)} ::
        j < layout.starts[index - 1] ==> IsBelow(cmp, layout, key, j)
    {
      hide Good, TotalOrder, IsBelow, Layout.Block, Layout.Valid, Layout.Restarts, Layout.Offset, RestartReadable, RestartKey,
           RestartAt, DecodeInternalKey, InternalCompare;
      RestartIs(cmp, layout, index - 1);
      var i := layout.starts[index - 1];
      forall j: nat | j < i ensures IsBelow(cmp, layout, key, j) { BeforePast(cmp, layout, key, i, j); }
    }

    /** Prev with an empty cache: back to the restart point before the current entry and forward again. */
    method PrevRestart() returns (r: Option<Item>)
      requires Fixed() && cached == [] && cachedBuf == [] && offset > 0 && -1 <= pos
      requires if layout.entries == [] then offset == 3 && pos <= 0 else 0 < pos <= |layout.entries| && offset == layout.Offset(pos)
      modifies this
      ensures Valid()
      ensures layout.entries == [] ==> r == Some((InternalKey([], KIND_INVALID), [])) && offset == 0 && nextOffset == 3
      ensures layout.entries != [] ==> pos == old(pos) - 1 && r == ItemAt(layout.entries, pos)
    {
      hide TotalOrder, IsBelow, Layout.Block, Layout.Valid, Layout.Restarts, Layout.Offset, RestartReadable,
           RestartKey, RestartAt, HeaderReadable, ReadHeader;
      var targetOffset := offset;
      var index := SearchOffsets(targetOffset);
      ghost var i := ToRestart(index);
      if layout.entries != [] && pos <= i { OffsetsIncrease(layout, pos, i); }
      ScanTo(targetOffset, i, pos);
      ikey := DecodeInternalKey(key);
      assert layout.entries == [] ==> data[valStart..valStart + valSize] == [];
      if layout.entries != [] { pos := pos - 1; }
      r := Some(Current());
    }

    method SeekGE(key: Bytes) returns (r: Option<Item>)
      requires Valid()
      modifies this
      ensures Valid()
      ensures layout.entries == [] ==> r == None && offset <= 0 && nextOffset == 3
      ensures layout.entries != [] ==>
        pos == Move(cmp, layout.entries, Op.SeekGE(key), old(pos)) && r == ItemAt(layout.entries, pos)
    {
      hide Good, TotalOrder, IsBelow, Layout.Block, Layout.Valid, Layout.Restarts, Layout.Offset, RestartReadable,
           RestartKey, RestartAt, DecodeInternalKey, InternalCompare;
      var target := InternalKey(key, SEARCH_TRAILER);
      ClearCache();
      var index := SearchRestarts(target, true);
      ghost var i := ToRestart(index);
      ikey := DecodeInternalKey(this.key);
      if layout.entries != [] {
        pos := i;
        if index > 0 { AllBefore(key, index); }
      }
      r := NextUntil(target);
    }

    /** Steps forward to the first entry at or after `target`. */
    method NextUntil(target: InternalKey) returns (r: Option<Item>)
      requires Valid() && target.trailer == SEARCH_TRAILER
      requires layout.entries == [] ==> offset >= 0
      requires layout.entries != [] ==>
        && pos >= 0
        && forall j: nat {:trigger IsBelow(cmp, layout, target.userKey, j)} ::
             j < pos ==> IsBelow(cmp, layout, target.userKey, j)
      modifies this
      ensures Valid()
      ensures layout.entries == [] ==> r == None && offset == old(offset) && nextOffset == old(nextOffset)
      ensures layout.entries != [] ==>
        pos == Below(cmp, layout.entries, target.userKey) && r == ItemAt(layout.entries, pos)
    {
      hide TotalOrder, IsBelow, Layout.Block, Layout.Valid, Layout.Restarts, Layout.Offset, DecodeInternalKey, CacheOk;
      StartIsRestart();
      if 0 <= pos <= |layout.entries| { OffsetsIncrease(layout, pos, |layout.entries|); }
      while IsValid()
        invariant Valid() && (layout.entries != [] ==> pos >= 0 && (IsValid() <==> pos < |layout.entries|))
        invariant layout.entries == [] ==> offset == old(offset) && nextOffset == old(nextOffset)
        invariant forall j: nat {:trigger IsBelow(cmp, layout, target.userKey, j)} :: j < pos ==>
          IsBelow(cmp, layout, target.userKey, j)
        decreases |layout.entries| - pos
      {
        SearchIsBelow(cmp, layout, target.userKey, pos);
        if InternalCompare(cmp, ikey, target) >= 0 {
          BelowIs(cmp, layout, target.userKey, pos);
          return Some(Current());
        }
        var _ := Next();
        OffsetsIncrease(layout, pos, |layout.entries|);
      }
      if layout.entries != [] { BelowIs(cmp, layout, target.userKey, pos); }
      r := None;
    }

    method SeekLT(key: Bytes) returns (r: Option<Item>)
      requires Valid()
      modifies this
      ensures Valid()
      ensures layout.entries == [] ==> r == None && offset <= 0 && nextOffset == if cmp(key, []) > 0 then 3 else 0
      ensures layout.entries != [] ==>
        pos == Move(cmp, layout.entries, Op.SeekLT(key), old(pos)) && r == ItemAt(layout.entries, pos)
    {
      hide TotalOrder, IsBelow, Layout.Block, Layout.Valid, Layout.Restarts, Layout.Offset, RestartReadable,
           RestartKey, RestartAt, InternalCompare;
      var target := InternalKey(key, SEARCH_TRAILER);
      StartIsRestart();
      ClearCache();
      offset := 0;
      var index := SearchRestarts(target, false);
      SearchPastNothing(cmp, key);
      if index == 0 {
        RestartIs(cmp, layout, 0);
        offset := -1;
        nextOffset := 0;
        if layout.entries != [] {
          SearchIsBelow(cmp, layout, key, 0);
          BelowIs(cmp, layout, key, 0);
          pos := -1;
        }
        return None;
      }
      var targetOffset := restarts;
      RestartIs(cmp, layout, index - 1);
      offset := RestartAt(data, restarts, index - 1);
      ghost var i, k := 0, |layout.entries|;
      if layout.entries != [] {
        i := layout.starts[index - 1];
        SearchIsBelow(cmp, layout, key, i);
      }
      if index < numRestarts {
        RestartIs(cmp, layout, index);
        targetOffset := RestartAt(data, restarts, index);
        k := layout.starts[index];
        SearchIsBelow(cmp, layout, key, k);
      }
      nextOffset := offset;
      r := ScanBelow(key, targetOffset, i, k);
    }

    /** Steps to entry `j` and decodes its key. */
    method LoadNext(ghost j: nat)
      requires Fixed()
      requires layout.entries == [] ==> nextOffset == 0 && -1 <= pos <= 0 && cached == [] && cachedBuf == []
      requires layout.entries != [] ==>
        && j < |layout.entries| && nextOffset == layout.Offset(j) && Prefixes(layout, fullKey, j)
        && CacheOk(layout, data, cached, cachedBuf, j)
      modifies this
      ensures cached == old(cached) && cachedBuf == old(cachedBuf) && Valid() && ikey == DecodeInternalKey(key)
      ensures if layout.entries == [] then OnEmpty() && offset == 0 else On(j) && pos == j && fullKey == key
    {
      hide TotalOrder, InOrder, Layout.Block, Layout.Valid, Layout.Restarts, Layout.Offset, CacheOk, Prefixes,
           DecodeInternalKey;
      offset := nextOffset;
      Load(j);
      ikey := DecodeInternalKey(key);
      if layout.entries != [] { pos := j; }
    }

    /** From restart point `i`, which is below `key`, reads and caches entries up to the last one below `key`
        before entry `k`, where the restart interval ends. */
    method ScanBelow(key: Bytes, targetOffset: nat, ghost i: nat, ghost k: nat) returns (r: Option<Item>)
      requires Fixed() && cached == [] && cachedBuf == [] && -1 <= pos <= |layout.entries|
      requires layout.entries == [] ==> nextOffset == 0 && targetOffset == 0 && cmp([], key) < 0
      requires layout.entries != [] ==>
        && i < k <= |layout.entries| && nextOffset == layout.Offset(i) && targetOffset == layout.Offset(k)
        && layout.shared[i] == 0 && IsBelow(cmp, layout, key, i) && (k < |layout.entries| ==> !IsBelow(cmp, layout, key, k))
      modifies this
      ensures Valid()
      ensures layout.entries == [] ==> r == None && offset <= 0 && nextOffset == 3
      ensures layout.entries != [] ==> pos == Below(cmp, layout.entries, key) - 1 && r == ItemAt(layout.entries, pos)
    {
      hide TotalOrder, InOrder, Layout.Block, Layout.Valid, Layout.Restarts, Layout.Offset, CacheOk, Prefixes, Below,
           DecodeInternalKey;
      StartIsRestart();
      if layout.entries != [] { PrefixesNext(layout, fullKey, i); }
      ghost var j := i;
      while true
        invariant layout.entries == [] ==> nextOffset == 0 && cached == [] && cachedBuf == []
        invariant layout.entries != [] ==>
          && i <= j < k && nextOffset == layout.Offset(j) && CacheOk(layout, data, cached, cachedBuf, j)
          && |cached| == j - i && Prefixes(layout, fullKey, j)
          && (forall m: nat {:trigger IsBelow(cmp, layout, key, m)} :: i <= m < j ==> IsBelow(cmp, layout, key, m))
        invariant -1 <= pos <= |layout.entries|
        decreases k - j
      {
        LoadNext(j);
        if layout.entries != [] { OffsetsIncrease(layout, j + 1, k); OffsetsIncrease(layout, j, |layout.entries|); }
        if cmp(ikey.userKey, key) >= 0 {
          r := Prev();
          BelowIsFrom(cmp, layout, key, i, j);
          return;
        }
        if nextOffset >= targetOffset {
          break;
        }
        CacheEntryNow(j);
        j := j + 1;
        PrefixesNext(layout, fullKey, j);
      }
      if !IsValid() { return None; }
      BelowIsFrom(cmp, layout, key, i, k);
      r := Some(Current());
    }
  }

  lemma {:induction false} BelowIsFrom(cmp: Compare, l: Layout, key: Bytes, i: nat, n: nat)
    requires Good(cmp, l) && i < n <= |l.entries|
    requires forall m: nat {:trigger IsBelow(cmp, l, key, m)} :: i <= m < n ==> IsBelow(cmp, l, key, m)
    requires n < |l.entries| ==> !IsBelow(cmp, l, key, n)
    ensures Below(cmp, l.entries, key) == n
  {
    forall m: nat | m < n ensures IsBelow(cmp, l, key, m) {
      assert IsBelow(cmp, l, key, i);
      if m < i { BelowIsPrefix(cmp, l, key, m, i); }
    }
    BelowIs(cmp, l, key, n);
  }

  // --- every sequence of calls ---------------------------------------------------------

  /** What the cursor shows after each of a sequence of calls. */
  function Observe(cmp: Compare, es: seq<Entry>, ops: seq<Op>, pos: int): seq<Option<Item>>
    decreases |ops|
  {
    if ops == [] then []
    else
      var p := Move(cmp, es, ops[0], pos);
      [ItemAt(es, p)] + Observe(cmp, es, ops[1..], p)
  }

  /** The position that a sequence of calls leads to. */
  function MoveAll(cmp: Compare, es: seq<Entry>, ops: seq<Op>, pos: int): int {
    if ops == [] then pos else MoveAll(cmp, es, ops[1..], Move(cmp, es, ops[0], pos))
  }

  lemma {:induction false} ObserveSnoc(cmp: Compare, es: seq<Entry>, ops: seq<Op>, op: Op, pos: int)
    ensures MoveAll(cmp, es, ops + [op], pos) == Move(cmp, es, op, MoveAll(cmp, es, ops, pos))
    ensures Observe(cmp, es, ops + [op], pos) == Observe(cmp, es, ops, pos) + [ItemAt(es, MoveAll(cmp, es, ops + [op], pos))]
    decreases |ops|
  {
    if ops == [] {
      assert ops + [op] == [op];
    } else {
      assert (ops + [op])[1..] == ops[1..] + [op];
      ObserveSnoc(cmp, es, ops[1..], op, Move(cmp, es, ops[0], pos));
    }
  }

  lemma {:induction false} ObserveNothing(cmp: Compare, es: seq<Entry>, pos: int)
    ensures MoveAll(cmp, es, [], pos) == pos && Observe(cmp, es, [], pos) == []
    ensures MoveAllEmpty(cmp, []) == Misread(false, false)
  {
  }

  lemma {:induction false} MoveEmptySnoc(cmp: Compare, ops: seq<Op>, op: Op)
    ensures MoveAllEmpty(cmp, ops + [op]) == MoveEmpty(cmp, MoveAllEmpty(cmp, ops), op)
  {
    assert (ops + [op])[..|ops|] == ops;
  }

  /** What an iterator over an empty block has read: the restart array as if it were an entry, and whether
      it stands past that. */
  datatype Misread = Misread(read: bool, past: bool)

  function MoveEmpty(cmp: Compare, m: Misread, op: Op): Misread {
    match op
    case First => Misread(m.read, false)
    case Last => Misread(m.read, false)
    case SeekGE(_) => Misread(true, false)
    case SeekLT(key) => Misread(cmp(key, []) > 0, false)
    case Next => Misread(m.read, m.read)
    case Prev => Misread(m.past, false)
  }

  function MoveAllEmpty(cmp: Compare, ops: seq<Op>): Misread {
    if ops == [] then Misread(false, false) else MoveEmpty(cmp, MoveAllEmpty(cmp, ops[..|ops| - 1]), ops[|ops| - 1])
  }

  method Call(iter: Iterator, op: Op) returns (r: Option<Item>)
    requires iter.Valid()
    modifies iter
    ensures iter.Valid()
    ensures iter.layout.entries == [] ==>
      && Misread(iter.nextOffset == 3, iter.offset == 3)
         == MoveEmpty(iter.cmp, old(Misread(iter.nextOffset == 3, iter.offset == 3)), op)
      && (r != None <==> op == Prev && old(iter.offset) == 3)
    ensures iter.layout.entries != [] ==>
      iter.pos == Move(iter.cmp, iter.layout.entries, op, old(iter.pos)) && r == ItemAt(iter.layout.entries, iter.pos)
  {
    match op
    case First => r := iter.First();
    case Last => r := iter.Last();
    case SeekGE(key) => r := iter.SeekGE(key);
    case SeekLT(key) => r := iter.SeekLT(key);
    case Next => r := iter.Next();
    case Prev => r := iter.Prev();
  }

  /** Every sequence of calls on a block that holds entries shows what the index cursor shows. On an empty
      block a call returns something exactly when it is a Prev and the calls before it have misread the block. */
  method Run(cmp: Compare, block: Bytes, ghost layout: Layout, ops: seq<Op>) returns (results: seq<Option<Item>>)
    requires Good(cmp, layout) && block == layout.Block()
    ensures layout.entries != [] ==> results == Observe(cmp, layout.entries, ops, -1)
    ensures |results| == |ops|
    ensures layout.entries == [] ==>
      forall k :: 0 <= k < |ops| ==> (results[k] != None <==> ops[k] == Prev && MoveAllEmpty(cmp, ops[..k]).past)
  {
    hide Good, Layout.Block, Layout.Valid, Move, ItemAt, MoveAll, Observe, Iterator.Valid, MoveEmpty, MoveAllEmpty;
    ObserveNothing(cmp, layout.entries, -1);
    var iter := new Iterator(cmp, block, layout);
    results := [];
    for i := 0 to |ops|
      invariant iter.Valid() && iter.layout == layout && iter.cmp == cmp && |results| == i
      invariant layout.entries == [] ==> Misread(iter.nextOffset == 3, iter.offset == 3) == MoveAllEmpty(cmp, ops[..i])
      invariant layout.entries == [] ==>
        forall k :: 0 <= k < i ==> (results[k] != None <==> ops[k] == Prev && MoveAllEmpty(cmp, ops[..k]).past)
      invariant layout.entries != [] ==>
        iter.pos == MoveAll(cmp, layout.entries, ops[..i], -1) && results == Observe(cmp, layout.entries, ops[..i], -1)
    {
      assert ops[..i + 1] == ops[..i] + [ops[i]];
      ObserveSnoc(cmp, layout.entries, ops[..i], ops[i], -1);
      MoveEmptySnoc(cmp, ops[..i], ops[i]);
      var r := Call(iter, ops[i]);
      results := results + [r];
    }
    assert ops[..|ops|] == ops;
  }

  /** The exception is real: on an empty block SeekGE, Next and Prev end on an entry that was never added. */
  method EmptyBlockCounterexample(cmp: Compare, key: Bytes) returns (r: Option<Item>)
    requires TotalOrder(cmp)
    ensures r == Some((InternalKey([], KIND_INVALID), []))
  {
    ghost var layout := Layout([], [], []);
    EmptyBlock(layout);
    var iter := new Iterator(cmp, [0, 0, 0, 0, 1, 0, 0, 0], layout);
    r := iter.SeekGE(key);
    r := iter.Next();
    r := iter.Prev();
  }

  // --- writing and reading back --------------------------------------------------------

  function EncodeItem(item: Item): Entry {
    Entry(item.0.Encode(), item.1)
  }

  function EncodeItems(items: seq<Item>): (es: seq<Entry>)
    ensures |es| == |items| && forall i :: 0 <= i < |items| ==> es[i] == EncodeItem(items[i])
  {
    seq(|items|, i requires 0 <= i < |items| => EncodeItem(items[i]))
  }

  /** The entry at which the writer will start over, when it has `n` entries. */
  function NextRestart(n: nat, interval: int): int {
    if n == 0 then 0
    else
      var next := NextRestart(n - 1, interval);
      if next == n - 1 then next + interval else next
  }

  function RestartsIn(n: nat, interval: int): nat {
    if n == 0 then 0 else RestartsIn(n - 1, interval) + if NextRestart(n - 1, interval) == n - 1 then 1 else 0
  }

  /** The bytes of the first `n` entries as the writer writes them. */
  function EntriesSize(es: seq<Entry>, n: nat, interval: int): nat
    requires n <= |es|
  {
    if n == 0 then 0
    else
      var e := es[n - 1];
      var shared := if n == 1 || NextRestart(n - 1, interval) == n - 1 then 0 else Common(e.key, es[n - 2].key);
      EntriesSize(es, n - 1, interval) + |EncodeEntry(e, shared)|
  }

  /** The bytes of the block that the writer writes. */
  function BlockSize(items: seq<Item>, interval: int): nat {
    var n := |items|;
    EntriesSize(EncodeItems(items), n, interval) + 4 * (if n == 0 then 1 else RestartsIn(n, interval)) + 4
  }

  lemma {:induction false} EntriesGrow(es: seq<Entry>, n: nat, m: nat, interval: int)
    requires n <= m <= |es|
    ensures EntriesSize(es, n, interval) <= EntriesSize(es, m, interval)
  {
    if n < m { EntriesGrow(es, n, m - 1, interval); }
  }

  /** All of a key is in the entries up to its own. */
  lemma {:induction false} KeyInEntries(es: seq<Entry>, i: nat, interval: int)
    requires i < |es|
    ensures |es[i].key| <= EntriesSize(es, i + 1, interval) && |es[i].value| <= EntriesSize(es, i + 1, interval)
  {
    if i > 0 { KeyInEntries(es, i - 1, interval); }
  }

  /** The layout holds the first `n` items. */
  ghost predicate IsItems(l: Layout, items: seq<Item>, n: nat)
    ensures IsItems(l, items, n) ==> l.Valid() && |l.entries| == n <= |items|
  {
    && l.Valid() && n <= |items| && |l.entries| == n
    && forall i: nat {:trigger l.entries[i]} :: i < n ==> l.entries[i] == EncodeItem(items[i])
  }

  ghost predicate Sorted(cmp: Compare, items: seq<Item>) {
    && (forall i: nat {:trigger items[i]} :: i < |items| ==> items[i].0.trailer <= SEARCH_TRAILER)
    && (forall i: nat, j: nat {:trigger items[i], items[j]} :: i < j < |items| ==> InternalCompare(cmp, items[i].0, items[j].0) < 0)
  }

  lemma {:induction false} ItemsAreGood(cmp: Compare, l: Layout, items: seq<Item>)
    requires TotalOrder(cmp) && Sorted(cmp, items) && IsItems(l, items, |items|)
    requires |l.Block()| < 0x8000_0000
    ensures Good(cmp, l)
  {
    hide Layout.Block, Layout.Valid, TotalOrder, InternalCompare;
    SearchTrailerFits();
    forall i: nat | i < |items| ensures KeyOk(l, i) {
      assert l.entries[i] == EncodeItem(items[i]);
      KeyRoundTrip(items[i].0);
    }
    forall i: nat, j: nat | i < j < |items| ensures InOrder(cmp, l, i, j) {
      assert l.entries[i] == EncodeItem(items[i]) && l.entries[j] == EncodeItem(items[j]);
      KeyRoundTrip(items[i].0);
      KeyRoundTrip(items[j].0);
    }
  }

  lemma {:induction false} ItemsAdd(l: Layout, m: Layout, items: seq<Item>, n: nat)
    requires IsItems(l, items, n) && n < |items| && m.Valid() && m.entries == l.entries + [EncodeItem(items[n])]
    ensures IsItems(m, items, n + 1)
  {
  }

  /** Writes a block, with `layout` to say what is in it. */
  method Write(items: seq<Item>, restartInterval: int) returns (block: Bytes, ghost layout: Layout)
    requires BlockSize(items, restartInterval) < 0x8000_0000
    ensures IsItems(layout, items, |items|) && block == layout.Block()
    ensures |block| == BlockSize(items, restartInterval)
  {
    hide IsItems, Layout.Valid, Layout.Block, Holds, PutLE, EncodeEntry, Common, InternalKey.Encode, Compressed,
         NextRestart, RestartsIn, EntriesSize;
    ghost var es := EncodeItems(items);
    SizeNone(es, restartInterval);
    var w := new Writer(restartInterval);
    HoldsBody(w);
    NoItems(w.layout, items);
    for i := 0 to |items|
      invariant fresh(w) && w.Valid() && IsItems(w.layout, items, i) && w.restartInterval == restartInterval
      invariant w.nEntries == i && w.nextRestart == NextRestart(i, restartInterval)
      invariant |w.buf| == EntriesSize(es, i, restartInterval) && |w.restarts| == RestartsIn(i, restartInterval)
      invariant i > 0 ==> w.curKey == es[i - 1].key
    {
      EntriesGrow(es, i, |items|, restartInterval);
      EntriesGrow(es, i + 1, |items|, restartInterval);
      KeyInEntries(es, i, restartInterval);
      KeyLength(items[i].0);
      SizeStep(es, i, restartInterval);
      ghost var was := w.layout;
      w.Add(items[i].0, items[i].1);
      HoldsBody(w);
      ItemsAdd(was, w.layout, items, i);
    }
    HoldsBody(w);
    layout := w.layout;
    block := w.Finish();
  }

  lemma {:induction false} SizeNone(es: seq<Entry>, interval: int)
    ensures NextRestart(0, interval) == 0 && RestartsIn(0, interval) == 0 && EntriesSize(es, 0, interval) == 0
  {
  }

  lemma {:induction false} SizeStep(es: seq<Entry>, n: nat, interval: int)
    requires n < |es|
    ensures var next := NextRestart(n, interval);
      && NextRestart(n + 1, interval) == (if next == n then n + interval else next)
      && RestartsIn(n + 1, interval) == RestartsIn(n, interval) + (if next == n then 1 else 0)
      && EntriesSize(es, n + 1, interval)
         == EntriesSize(es, n, interval) + |EncodeEntry(es[n], if n == 0 || next == n then 0 else Common(es[n].key, es[n - 1].key))|
      && (n == 0 ==> next == n)
  {
  }

  lemma {:induction false} KeyLength(key: InternalKey)
    ensures |key.Encode()| == |key.userKey| + 8
  {
  }

  lemma {:induction false} HoldsBody(w: Writer)
    requires w.Valid()
    ensures w.layout.Valid() && w.buf == w.layout.Body(|w.layout.entries|)
  {
  }

  lemma {:induction false} NoItems(l: Layout, items: seq<Item>)
    requires l.Valid() && l.entries == []
    ensures IsItems(l, items, 0)
  {
  }

  lemma {:induction false} ItemIs(l: Layout, items: seq<Item>, i: nat)
    requires IsItems(l, items, |items|) && i < |items| && items[i].0.trailer < Pow256(8)
    ensures ItemAt(l.entries, i) == Some(items[i])
  {
    assert l.entries[i] == EncodeItem(items[i]);
    KeyRoundTrip(items[i].0);
  }

  lemma {:induction false} SearchTrailerFits()
    ensures SEARCH_TRAILER < Pow256(8)
  {
    assert Pow256(2) == 0x1_0000 && Pow256(4) == 0x1_0000_0000 && Pow256(6) == 0x1_0000_0000_0000;
  }

  /** The bytes that the writer produces read back, from First by Next, as exactly the entries added. */
  method RoundTrip(cmp: Compare, items: seq<Item>, restartInterval: int) returns (out: seq<Item>)
    requires TotalOrder(cmp) && Sorted(cmp, items) && BlockSize(items, restartInterval) < 0x8000_0000
    ensures out == items
  {
    hide Good, TotalOrder, IsItems, Layout.Valid, Layout.Block, BlockSize, ItemAt, Iterator.Valid, InternalCompare,
         Pow256;
    ghost var layout;
    var block;
    block, layout := Write(items, restartInterval);
    ItemsAreGood(cmp, layout, items);
    SearchTrailerFits();
    var iter := new Iterator(cmp, block, layout);
    out := [];
    var r := iter.First();
    ghost var i := 0;
    while r != None
      invariant fresh(iter) && iter.Valid() && iter.layout == layout && iter.cmp == cmp
      invariant layout.entries == [] ==> r == None && out == []
      invariant layout.entries != [] ==> iter.pos == i <= |items| && out == items[..i] && r == ItemAt(layout.entries, i)
      decreases |items| - i
    {
      NotPastEnd(layout.entries, i);
      ItemIs(layout, items, i);
      out := out + [r.value];
      r := iter.Next();
      i := i + 1;
    }
    if i < |items| { ItemIs(layout, items, i); }
  }

  lemma {:induction false} NotPastEnd(es: seq<Entry>, i: nat)
    requires ItemAt(es, i) != None
    ensures i < |es|
  {
  }
}
