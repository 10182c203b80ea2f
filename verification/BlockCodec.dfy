/** sstable/block.go: the bytes of a block and the writer that produces them. */
module BlockCodec {

  type Byte = b: int | 0 <= b < 256
  type Bytes = seq<Byte>

  // --- numbers ---------------------------------------------------------------

  /** The varint encoding: seven bits a byte, low bits first, the top bit set on all but the last. */
  function Varint(x: nat): (r: Bytes)
    ensures |r| >= 1
  {
    if x < 128 then [x] else [x % 128 + 128] + Varint(x / 128)
  }

  /** Appends a varint, one byte at a time. */
  method PutUvarint(buf: Bytes, v: nat) returns (r: Bytes)
    ensures r == buf + Varint(v)
  {
    r := buf;
    var x := v;
    while x >= 128
      invariant r + Varint(x) == buf + Varint(v)
    {
      ghost var before := r;
      r := r + [x % 128 + 128];
      assert before + Varint(x) == r + Varint(x / 128);
      x := x / 128;
    }
    r := r + [x];
  }

  method UvarintLen(v: nat) returns (n: nat)
    ensures n == |Varint(v)|
  {
    n := 0;
    var x := v;
    while x >= 128
      invariant n + |Varint(x)| == |Varint(v)|
    {
      x := x / 128;
      n := n + 1;
    }
    n := n + 1;
  }

  /** The bytes that the unrolled decoder looks at are inside the block. */
  predicate Readable(data: Bytes, p: nat) {
    && p < |data|
    && (data[p] < 128 || (p + 1 < |data|
    && (data[p + 1] < 128 || (p + 2 < |data|
    && (data[p + 2] < 128 || (p + 3 < |data|
    && (data[p + 3] < 128 || p + 4 < |data|)))))))
  }

  /** The decoder, unrolled for one to five bytes, in 32-bit arithmetic: the value and where it ends. */
  function ReadUvarint(data: Bytes, p: nat): (nat, nat)
    requires Readable(data, p)
  {
    var a: int := data[p];
    if a < 128 then (a, p + 1) else
    var b: int := data[p + 1];
    if b < 128 then (b * 0x80 + a % 128, p + 2) else
    var c: int := data[p + 2];
    if c < 128 then (c * 0x4000 + b % 128 * 0x80 + a % 128, p + 3) else
    var d: int := data[p + 3];
    if d < 128 then (d * 0x20_0000 + c % 128 * 0x4000 + b % 128 * 0x80 + a % 128, p + 4) else
    var e: int := data[p + 4];
    (e * 0x1000_0000 % 0x1_0000_0000 + d % 128 * 0x20_0000 + c % 128 * 0x4000 + b % 128 * 0x80 + a % 128, p + 5)
  }

  /** `part` lies in `data` at `p`. */
  predicate At(data: Bytes, p: nat, part: Bytes) {
    p + |part| <= |data| && data[p..p + |part|] == part
  }

  lemma {:induction false} AtSplit(data: Bytes, p: nat, a: Bytes, b: Bytes)
    requires At(data, p, a + b)
    ensures At(data, p, a) && At(data, p + |a|, b)
  {
    assert data[p..p + |a|] == (a + b)[..|a|];
    assert data[p + |a|..p + |a| + |b|] == (a + b)[|a|..];
  }

  lemma {:induction false} AtEnd(data: Bytes, part: Bytes)
    ensures At(data + part, |data|, part)
  {
  }

  lemma {:induction false} AtTake(data: Bytes, n: nat, p: nat, part: Bytes)
    requires n <= |data| && At(data[..n], p, part)
    ensures At(data, p, part)
  {
    assert data[p..p + |part|] == data[..n][p..p + |part|];
  }

  /** The first byte of a varint, and what follows it. */
  lemma {:induction false} VarintHead(data: Bytes, p: nat, x: nat) returns (rest: nat)
    requires At(data, p, Varint(x))
    ensures p < |data| && (x < 128 <==> data[p] < 128)
    ensures x < 128 ==> data[p] == x && |Varint(x)| == 1
    ensures x >= 128 ==>
      x == 128 * rest + data[p] % 128 && At(data, p + 1, Varint(rest)) && |Varint(x)| == 1 + |Varint(rest)|
  {
    rest := x / 128;
    assert data[p] == data[p..p + |Varint(x)|][0];
    if x >= 128 { AtSplit(data, p, [x % 128 + 128], Varint(rest)); }
  }

  /** The unrolled decoder undoes the looping encoder on every 32-bit number. */
  lemma {:induction false} VarintRoundTrip(data: Bytes, p: nat, x: nat)
    requires x < 0x1_0000_0000 && At(data, p, Varint(x))
    ensures Readable(data, p) && ReadUvarint(data, p) == (x, p + |Varint(x)|)
  {
    hide Varint, At;
    var x1 := VarintHead(data, p, x);
    if x >= 128 {
      var x2 := VarintHead(data, p + 1, x1);
      if x1 >= 128 {
        var x3 := VarintHead(data, p + 2, x2);
        if x2 >= 128 {
          var x4 := VarintHead(data, p + 3, x3);
          if x3 >= 128 { var x5 := VarintHead(data, p + 4, x4); }
        }
      }
    }
  }

  function Pow256(n: nat): (r: nat)
    ensures r >= 1
  {
    if n == 0 then 1 else 256 * Pow256(n - 1)
  }

  function PutLE(x: nat, width: nat): (r: Bytes)
    ensures |r| == width
  {
    if width == 0 then [] else [x % 256] + PutLE(x / 256, width - 1)
  }

  function GetLE(b: Bytes): nat {
    if b == [] then 0 else b[0] + 256 * GetLE(b[1..])
  }

  lemma {:induction false} LERoundTrip(x: nat, width: nat)
    requires x < Pow256(width)
    ensures GetLE(PutLE(x, width)) == x
  {
    if width > 0 {
      LERoundTrip(x / 256, width - 1);
      assert PutLE(x, width)[1..] == PutLE(x / 256, width - 1);
    }
  }

  lemma {:induction false} TimesLess(d: nat, a: nat, b: nat)
    ensures a < b ==> d * a + d <= d * b
    decreases b
  {
    if a < b {
      TimesLess(d, a, b - 1);
      assert d * b == d * (b - 1) + d;
    }
  }

  lemma {:induction false} TimesSum(c: nat, d: nat, q: nat, m: nat)
    ensures c * (d * q + m) == (c * d) * q + c * m
  {
  }

  lemma {:induction false} DivUnique(x: nat, d: nat, q: nat, r: nat)
    requires 0 < d && x == d * q + r && r < d
    ensures x / d == q
  {
    TimesLess(d, x / d, q);
    TimesLess(d, q, x / d);
  }

  lemma {:induction false} DivTwiceIs(x: nat, c: nat, d: nat, y: nat, r: nat, q: nat, m: nat)
    requires x == c * y + r && r < c && y == d * q + m && m < d
    ensures c * d > 0 && x / (c * d) == q
  {
    TimesSum(c, d, q, m);
    TimesLess(c, m, d);
    DivUnique(x, c * d, q, c * m + r);
  }

  lemma {:induction false} DivTwice(x: nat, c: nat, d: nat)
    requires 0 < c && 0 < d
    ensures c * d > 0 && x / c / d == x / (c * d)
  {
    DivTwiceIs(x, c, d, x / c, x % c, x / c / d, x / c % d);
  }

  /** Byte `i` of a little-endian number. */
  lemma {:induction false} LEBytes(x: nat, width: nat, i: nat)
    requires i < width
    ensures PutLE(x, width)[i] == x / Pow256(i) % 256
  {
    if i > 0 {
      LEBytes(x / 256, width - 1, i - 1);
      DivTwice(x, 256, Pow256(i - 1));
    }
  }

  function Pow128(n: nat): (r: nat)
    ensures r >= 1
  {
    if n == 0 then 1 else 128 * Pow128(n - 1)
  }

  /** Byte `i` of a varint: seven bits, lowest first, and a mark on every byte but the last; there are no more bytes
      than the number needs. */
  lemma {:induction false} VarintBytes(x: nat)
    ensures var n := |Varint(x)|;
      && n > 0 && x < Pow128(n) && (n > 1 ==> Pow128(n - 1) <= x)
      && forall i: nat {:trigger Pow128(i)} :: i < n ==> Varint(x)[i] == x / Pow128(i) % 128 + if i + 1 < n then 128 else 0
  {
    if x >= 128 {
      VarintBytes(x / 128);
      var n := |Varint(x)|;
      assert x < 128 * (x / 128 + 1) <= 128 * Pow128(n - 1);
      forall i: nat | i < n ensures Varint(x)[i] == x / Pow128(i) % 128 + if i + 1 < n then 128 else 0 {
        if i > 0 {
          assert Varint(x)[i] == Varint(x / 128)[i - 1];
          assert x / 128 / Pow128(i - 1) == x / Pow128(i) by { DivTwice(x, 128, Pow128(i - 1)); }
        }
      }
    }
  }

  // --- internal keys -----------------------------------------------------------

  datatype InternalKey = InternalKey(userKey: Bytes, trailer: nat) {
    function Encode(): Bytes { userKey + PutLE(trailer, 8) }
  }

  const KIND_INVALID: nat := 255

  function DecodeInternalKey(key: Bytes): (k: InternalKey)
    ensures |key| < 8 ==> k == InternalKey([], KIND_INVALID)
  {
    var n := |key| - 8;
    if n >= 0 then InternalKey(key[..n], GetLE(key[n..])) else InternalKey([], KIND_INVALID)
  }

  lemma {:induction false} KeyRoundTrip(k: InternalKey)
    requires k.trailer < Pow256(8)
    ensures DecodeInternalKey(k.Encode()) == k
  {
    LERoundTrip(k.trailer, 8);
    assert k.Encode()[|k.userKey|..] == PutLE(k.trailer, 8);
  }

  /** The user key, and then the trailer in eight bytes, lowest first. */
  lemma {:induction false} KeyBytes(k: InternalKey)
    ensures |k.Encode()| == |k.userKey| + 8 && k.Encode()[..|k.userKey|] == k.userKey
    ensures forall i: nat {:trigger Pow256(i)} :: i < 8 ==> k.Encode()[|k.userKey| + i] == k.trailer / Pow256(i) % 256
  {
    forall i: nat | i < 8 ensures k.Encode()[|k.userKey| + i] == k.trailer / Pow256(i) % 256 {
      LEBytes(k.trailer, 8, i);
    }
  }

  // --- the layout of a block ---------------------------------------------------

  datatype Entry = Entry(key: Bytes, value: Bytes)

  function EncodeEntry(e: Entry, shared: nat): (r: Bytes)
    requires shared <= |e.key|
    ensures |r| >= 3
  {
    Varint(shared) + Varint(|e.key| - shared) + Varint(|e.value|) + (e.key[shared..] + e.value)
  }

  /** The entries of a block, how many bytes of its key each one takes from its predecessor, and
      which of them are restart points. */
  datatype Layout = Layout(entries: seq<Entry>, shared: seq<nat>, starts: seq<nat>) {

    predicate Valid() {
      && |shared| == |entries|
      && (forall i: nat {:trigger SharedOk(i)} :: i < |entries| ==> SharedOk(i))
      && (|entries| > 0 ==> |starts| > 0)
      && (forall r: nat {:trigger StartOk(r)} :: r < |starts| ==> StartOk(r))
    }

    /** Restart points are in order, start at the first entry and share nothing. */
    predicate StartOk(r: nat)
      requires r < |starts| && |shared| == |entries|
    {
      && starts[r] < |entries| && shared[starts[r]] == 0
      && if r == 0 then starts[0] == 0 else starts[r - 1] < starts[r]
    }

    predicate SharedOk(i: nat)
      requires i < |entries| && |shared| == |entries|
    {
      && shared[i] <= |entries[i].key| < 0x1_0000_0000 && |entries[i].value| < 0x1_0000_0000
      && (shared[i] > 0 ==> i > 0 && shared[i] <= |entries[i - 1].key|
                            && entries[i].key[..shared[i]] == entries[i - 1].key[..shared[i]])
    }

    /** The encoding of the first `n` entries. */
    function Body(n: nat): Bytes
      requires Valid() && n <= |entries|
    {
      if n == 0 then [] else assert SharedOk(n - 1); Body(n - 1) + EncodeEntry(entries[n - 1], shared[n - 1])
    }

    function Offset(n: nat): nat
      requires Valid() && n <= |entries|
    {
      |Body(n)|
    }

    function Offsets(k: nat): (r: seq<nat>)
      requires Valid() && k <= |starts|
      ensures |r| == k && forall i: nat :: i < k ==> StartOk(i) && r[i] == Offset(starts[i])
    {
      seq(k, i requires 0 <= i < k => assert StartOk(i); Offset(starts[i]))
    }

    /** Every block has at least one restart point. */
    function Restarts(): (r: seq<nat>)
      requires Valid()
      ensures |r| > 0
    {
      if entries == [] then [0] else Offsets(|starts|)
    }

    function Block(): Bytes
      requires Valid()
    {
      Body(|entries|) + EncodeRestarts(Restarts()) + PutLE(|Restarts()|, 4)
    }
  }

  function EncodeRestarts(rs: seq<nat>): (b: Bytes)
    ensures |b| == 4 * |rs|
  {
    if rs == [] then [] else EncodeRestarts(rs[..|rs| - 1]) + PutLE(rs[|rs| - 1], 4)
  }

  lemma {:induction false} BodyGrows(l: Layout, i: nat, n: nat)
    requires l.Valid() && i <= n <= |l.entries|
    ensures l.Offset(i) + 3 * (n - i) <= l.Offset(n) && l.Body(n)[..l.Offset(i)] == l.Body(i)
  {
    if i < n { BodyGrows(l, i, n - 1); }
  }

  lemma {:induction false} EntryAt(l: Layout, i: nat)
    requires l.Valid() && i < |l.entries| && l.SharedOk(i)
    ensures l.Offset(i + 1) == l.Offset(i) + |EncodeEntry(l.entries[i], l.shared[i])|
    ensures l.Offset(i + 1) <= l.Offset(|l.entries|) <= |l.Block()|
    ensures At(l.Block(), l.Offset(i), EncodeEntry(l.entries[i], l.shared[i]))
  {
    hide EncodeEntry, EncodeRestarts, Layout.Restarts, PutLE, At;
    var e, n := EncodeEntry(l.entries[i], l.shared[i]), |l.entries|;
    BodyGrows(l, i + 1, n);
    AtEnd(l.Body(i), e);
    AtTake(l.Body(n), l.Offset(i + 1), l.Offset(i), e);
    assert l.Block()[..l.Offset(n)] == l.Body(n);
    AtTake(l.Block(), l.Offset(n), l.Offset(i), e);
  }

  // --- reading back ------------------------------------------------------------

  /** The three varints in front of an entry and where its key bytes start. */
  datatype Header = Header(shared: nat, unshared: nat, valSize: nat, keyStart: nat)

  predicate HeaderReadable(data: Bytes, p: nat) {
    Readable(data, p) && Readable(data, ReadUvarint(data, p).1) && Readable(data, ReadUvarint(data, ReadUvarint(data, p).1).1)
  }

  function ReadHeader(data: Bytes, p: nat): Header
    requires HeaderReadable(data, p)
  {
    var (shared, p1) := ReadUvarint(data, p);
    var (unshared, p2) := ReadUvarint(data, p1);
    var (valSize, p3) := ReadUvarint(data, p2);
    Header(shared, unshared, valSize, p3)
  }

  /** Every entry decodes to what was encoded, up to the bytes shared with the key before it. */
  lemma {:induction false} EntryRoundTrip(l: Layout, i: nat) returns (h: Header)
    requires l.Valid() && i < |l.entries|
    ensures l.SharedOk(i) && HeaderReadable(l.Block(), l.Offset(i)) && h == ReadHeader(l.Block(), l.Offset(i))
    ensures h.shared == l.shared[i] && h.unshared == |l.entries[i].key| - h.shared && h.valSize == |l.entries[i].value|
    ensures l.Offset(i) < h.keyStart
    ensures h.keyStart + h.unshared + h.valSize == l.Offset(i + 1) <= l.Offset(|l.entries|) <= |l.Block()|
    ensures l.Block()[h.keyStart..h.keyStart + h.unshared] == l.entries[i].key[h.shared..]
    ensures l.Block()[h.keyStart + h.unshared..h.keyStart + h.unshared + h.valSize] == l.entries[i].value
  {
    hide Layout.Block, Layout.Offset, Layout.Body, EncodeEntry, At, HeaderReadable, ReadHeader;
    assert l.SharedOk(i);
    EntryAt(l, i);
    var e, data, p := l.entries[i], l.Block(), l.Offset(i);
    HeaderRoundTrip(data, p, e, l.shared[i]);
    h := ReadHeader(data, p);
  }

  lemma {:induction false} HeaderRoundTrip(data: Bytes, p: nat, e: Entry, shared: nat)
    requires shared <= |e.key| < 0x1_0000_0000 && |e.value| < 0x1_0000_0000 && At(data, p, EncodeEntry(e, shared))
    ensures HeaderReadable(data, p)
    ensures var h := ReadHeader(data, p);
      && h.shared == shared && h.unshared == |e.key| - shared && h.valSize == |e.value| && p < h.keyStart
      && h.keyStart + h.unshared + h.valSize == p + |EncodeEntry(e, shared)| <= |data|
      && data[h.keyStart..h.keyStart + h.unshared] == e.key[shared..]
      && data[h.keyStart + h.unshared..h.keyStart + h.unshared + h.valSize] == e.value
  {
    hide Readable, ReadUvarint, Varint, EncodeEntry;
    var a, b := Varint(shared), Varint(|e.key| - shared);
    EntryParts(data, p, e, shared);
    VarintRoundTrip(data, p, shared);
    VarintRoundTrip(data, p + |a|, |e.key| - shared);
    VarintRoundTrip(data, p + |a| + |b|, |e.value|);
  }

  /** The parts of an entry, one after the other. */
  lemma {:induction false} EntryParts(data: Bytes, p: nat, e: Entry, shared: nat)
    requires shared <= |e.key| && At(data, p, EncodeEntry(e, shared))
    ensures var a, b, c := Varint(shared), Varint(|e.key| - shared), Varint(|e.value|);
            var q := p + |a| + |b| + |c|;
      && At(data, p, a) && At(data, p + |a|, b) && At(data, p + |a| + |b|, c)
      && At(data, q, e.key[shared..]) && At(data, q + |e.key| - shared, e.value)
      && q + |e.key| - shared + |e.value| == p + |EncodeEntry(e, shared)|
  {
    hide Varint, At;
    var a, b, c := Varint(shared), Varint(|e.key| - shared), Varint(|e.value|);
    AtSplit(data, p, a + b + c, e.key[shared..] + e.value);
    AtSplit(data, p, a + b, c);
    AtSplit(data, p, a, b);
    AtSplit(data, p + |a| + |b| + |c|, e.key[shared..], e.value);
  }

  function RestartAt(data: Bytes, restarts: nat, r: nat): nat
    requires restarts + 4 * r + 4 <= |data|
  {
    GetLE(data[restarts + 4 * r..restarts + 4 * r + 4])
  }

  lemma {:induction false} RestartsRoundTrip(data: Bytes, p: nat, rs: seq<nat>, r: nat)
    requires At(data, p, EncodeRestarts(rs)) && r < |rs| && rs[r] < 0x1_0000_0000
    ensures p + 4 * r + 4 <= |data| && RestartAt(data, p, r) == rs[r]
    decreases |rs|
  {
    AtSplit(data, p, EncodeRestarts(rs[..|rs| - 1]), PutLE(rs[|rs| - 1], 4));
    if r == |rs| - 1 {
      assert Pow256(4) == 0x1_0000_0000;
      LERoundTrip(rs[r], 4);
    } else {
      RestartsRoundTrip(data, p, rs[..|rs| - 1], r);
    }
  }

  /** The trailer of a block leads back to its restart points. */
  lemma {:induction false} BlockRoundTrip(l: Layout)
    requires l.Valid() && |l.Block()| < 0x8000_0000
    ensures var data := l.Block(); var rs := l.Restarts();
      && |data| >= 4 && GetLE(data[|data| - 4..]) == |rs| && |data| - 4 * (1 + |rs|) == l.Offset(|l.entries|)
      && forall r :: 0 <= r < |rs| ==> rs[r] <= l.Offset(|l.entries|) && RestartAt(data, l.Offset(|l.entries|), r) == rs[r]
  {
    var data, rs, n := l.Block(), l.Restarts(), |l.entries|;
    assert Pow256(4) == 0x1_0000_0000;
    LERoundTrip(|rs|, 4);
    assert data[|data| - 4..] == PutLE(|rs|, 4);
    assert At(data, l.Offset(n), EncodeRestarts(rs));
    forall r | 0 <= r < |rs| ensures rs[r] <= l.Offset(n) && RestartAt(data, l.Offset(n), r) == rs[r] {
      if l.entries != [] { assert l.StartOk(r); BodyGrows(l, l.starts[r], n); }
      RestartsRoundTrip(data, l.Offset(n), rs, r);
    }
  }

  // --- the writer --------------------------------------------------------------

  function AddEntry(l: Layout, e: Entry, shared: nat, restart: bool): Layout {
    Layout(l.entries + [e], l.shared + [shared], if restart then l.starts + [|l.entries|] else l.starts)
  }

  lemma {:induction false} BodySame(l: Layout, m: Layout, n: nat)
    requires l.Valid() && m.Valid() && n <= |l.entries| && l.entries <= m.entries && l.shared <= m.shared
    ensures m.Body(n) == l.Body(n)
  {
    if n > 0 { BodySame(l, m, n - 1); }
  }

  /** The new entry shares only what it can with the last one, and the first entry is a restart point. */
  predicate CanAdd(l: Layout, e: Entry, shared: nat, restart: bool) {
    && shared <= |e.key| < 0x1_0000_0000 && |e.value| < 0x1_0000_0000
    && (|l.entries| == 0 ==> restart)
    && (shared > 0 ==> |l.entries| > 0 && !restart && shared <= |l.entries[|l.entries| - 1].key|
                       && e.key[..shared] == l.entries[|l.entries| - 1].key[..shared])
  }

  lemma {:induction false} AddIsValid(l: Layout, e: Entry, shared: nat, restart: bool)
    requires l.Valid() && CanAdd(l, e, shared, restart)
    ensures AddEntry(l, e, shared, restart).Valid()
  {
    var m := AddEntry(l, e, shared, restart);
    forall i: nat | i < |m.entries| ensures m.SharedOk(i) {
      if i < |l.entries| { assert l.SharedOk(i); }
    }
    forall r: nat | r < |m.starts| ensures m.StartOk(r) {
      if r < |l.starts| { assert l.StartOk(r); } else if r > 0 { assert l.StartOk(r - 1); }
    }
  }

  lemma {:induction false} AddBody(l: Layout, e: Entry, shared: nat, restart: bool)
    requires l.Valid() && CanAdd(l, e, shared, restart) && AddEntry(l, e, shared, restart).Valid()
    ensures var m := AddEntry(l, e, shared, restart);
      && m.Body(|m.entries|) == l.Body(|l.entries|) + EncodeEntry(e, shared)
      && m.Offsets(|m.starts|) == l.Offsets(|l.starts|) + if restart then [|l.Body(|l.entries|)|] else []
  {
    var m := AddEntry(l, e, shared, restart);
    hide EncodeEntry;
    BodySame(l, m, |l.entries|);
    forall r: nat | r < |l.starts| ensures l.StartOk(r) && m.Offset(m.starts[r]) == l.Offset(l.starts[r]) {
      assert l.StartOk(r);
      BodySame(l, m, l.starts[r]);
    }
  }

  /** A restart point every `interval` entries. */
  predicate Spaced(starts: seq<nat>, interval: int, n: nat, next: int) {
    interval >= 1 && |starts| > 0 ==>
      && (forall r :: 0 <= r < |starts| - 1 ==> starts[r + 1] == starts[r] + interval)
      && next == starts[|starts| - 1] + interval && n <= next
  }

  lemma {:induction false} AddSpaced(starts: seq<nat>, interval: int, n: nat, next: int)
    requires Spaced(starts, interval, n, next)
    ensures n == next ==> Spaced(starts + [n], interval, n + 1, n + interval)
    ensures n == 0 && starts == [] ==> Spaced(starts + [n], interval, n + 1, n + interval)
    ensures n != next ==> Spaced(starts, interval, n + 1, next)
  {
  }

  /** The writer's buffers hold the layout. */
  ghost predicate Holds(l: Layout, buf: Bytes, restarts: seq<nat>, interval: int, next: int)
    ensures Holds(l, buf, restarts, interval, next) && |l.entries| == 0 ==> next == 0
  {
    && l.Valid() && buf == l.Body(|l.entries|) && restarts == l.Offsets(|l.starts|)
    && (|l.entries| == 0 ==> next == 0 && l.starts == []) && Spaced(l.starts, interval, |l.entries|, next)
  }

  lemma {:induction false} HoldsBlock(l: Layout, buf: Bytes, restarts: seq<nat>, interval: int, next: int)
    requires Holds(l, buf, restarts, interval, next)
    ensures l.Valid()
    ensures var rs := if |l.entries| == 0 then [0] else restarts;
      l.Block() == buf + EncodeRestarts(rs) + PutLE(|rs|, 4)
  {
    hide EncodeRestarts, PutLE, Layout.Valid, Layout.Body, Spaced;
  }

  lemma {:induction false} HoldsNothing(interval: int)
    ensures Holds(Layout([], [], []), [], [], interval, 0)
  {
  }

  lemma {:induction false} AddHolds(
      l: Layout, buf: Bytes, restarts: seq<nat>, interval: int, next: int, e: Entry, shared: nat)
    requires Holds(l, buf, restarts, interval, next) && CanAdd(l, e, shared, |l.entries| == next)
    ensures var restart := |l.entries| == next;
      Holds(AddEntry(l, e, shared, restart), buf + EncodeEntry(e, shared),
            if restart then restarts + [|buf|] else restarts, interval, if restart then |l.entries| + interval else next)
  {
    hide Spaced, Layout.Valid, Layout.Body, Layout.Offset, Layout.Offsets, EncodeEntry, Varint, CanAdd;
    var restart := |l.entries| == next;
    AddSpaced(l.starts, interval, |l.entries|, next);
    AddIsValid(l, e, shared, restart);
    AddBody(l, e, shared, restart);
  }

  /** `n` is how many bytes two keys have in common at the front. */
  predicate IsLongest(a: Bytes, b: Bytes, n: nat) {
    && n <= |a| && n <= |b| && a[..n] == b[..n]
    && (n < |a| && n < |b| ==> a[n] != b[n])
  }

  function Common(a: Bytes, b: Bytes): (n: nat)
    ensures IsLongest(a, b, n)
  {
    if a == [] || b == [] || a[0] != b[0] then 0
    else
      var n := Common(a[1..], b[1..]);
      assert a[..n + 1] == [a[0]] + a[1..][..n] && b[..n + 1] == [b[0]] + b[1..][..n];
      n + 1
  }

  lemma {:induction false} LongestIsCommon(a: Bytes, b: Bytes, n: nat)
    requires IsLongest(a, b, n)
    ensures n == Common(a, b)
  {
    var m := Common(a, b);
    assert forall i :: 0 <= i < m ==> a[..m][i] == b[..m][i] && a[i] == b[i];
    assert forall i :: 0 <= i < n ==> a[..n][i] == b[..n][i] && a[i] == b[i];
  }

  /** Entry `i` is a restart point or shares all it can with the one before. */
  predicate SharesMost(l: Layout, i: nat)
    requires i < |l.entries| && |l.shared| == |l.entries|
  {
    i in l.starts || (i > 0 && IsLongest(l.entries[i].key, l.entries[i - 1].key, l.shared[i]))
  }

  ghost predicate Compressed(l: Layout) {
    |l.shared| == |l.entries| && forall i: nat {:trigger SharesMost(l, i)} :: i < |l.entries| ==> SharesMost(l, i)
  }

  lemma {:induction false} AddCompressed(l: Layout, e: Entry, shared: nat, restart: bool)
    requires Compressed(l)
    requires restart || (|l.entries| > 0 && IsLongest(e.key, l.entries[|l.entries| - 1].key, shared))
    ensures Compressed(AddEntry(l, e, shared, restart))
  {
    hide IsLongest;
    var m := AddEntry(l, e, shared, restart);
    forall i: nat | i < |m.entries| ensures SharesMost(m, i) {
      if i < |l.entries| { assert SharesMost(l, i); }
    }
  }

  method SharedPrefixLen(a: Bytes, b: Bytes) returns (shared: nat)
    ensures IsLongest(a, b, shared)
  {
    var n := if |a| > |b| then |b| else |a|;
    shared := 0;
    while shared < n && a[shared] == b[shared]
      invariant shared <= n && a[..shared] == b[..shared]
    {
      shared := shared + 1;
    }
  }

  method PutEntry(buf: Bytes, e: Entry, shared: nat) returns (r: Bytes)
    requires shared <= |e.key|
    ensures r == buf + EncodeEntry(e, shared)
  {
    hide Varint;
    r := PutUvarint(buf, shared);
    r := PutUvarint(r, |e.key| - shared);
    r := PutUvarint(r, |e.value|);
    ghost var header := r;
    assert header == buf + (Varint(shared) + Varint(|e.key| - shared) + Varint(|e.value|));
    r := r + e.key[shared..];
    r := r + e.value;
    assert r == header + (e.key[shared..] + e.value);
  }

  method PutRestarts(buf: Bytes, restarts: seq<nat>) returns (r: Bytes)
    ensures r == buf + EncodeRestarts(restarts)
  {
    r := buf;
    for i := 0 to |restarts|
      invariant r == buf + EncodeRestarts(restarts[..i])
    {
      assert restarts[..i + 1][..i] == restarts[..i];
      r := r + PutLE(restarts[i], 4);
    }
    assert restarts[..|restarts|] == restarts;
  }

  class Writer {
    const restartInterval: int
    var nEntries: nat
    var nextRestart: int
    var buf: Bytes
    var restarts: seq<nat>
    var curKey: Bytes
    var prevKey: Bytes
    ghost var layout: Layout

    ghost predicate Valid()
      reads this
    {
      && Holds(layout, buf, restarts, restartInterval, nextRestart) && Compressed(layout) && nEntries == |layout.entries|
      && (nEntries > 0 ==> curKey == layout.entries[nEntries - 1].key)
    }

    constructor (restartInterval: int)
      ensures Valid() && layout.entries == [] && this.restartInterval == restartInterval && buf == [] && restarts == []
    {
      this.restartInterval := restartInterval;
      nEntries, nextRestart, buf, restarts, curKey, prevKey := 0, 0, [], [], [], [];
      layout := Layout([], [], []);
    }

    /** By how much an entry makes the block grow. */
    ghost predicate Grown(n: nat, next: int, size: nat, nRestarts: nat, e: Entry, prev: Bytes)
      reads this
    {
      && nEntries == n + 1 && nextRestart == (if n == next then n + restartInterval else next)
      && |restarts| == nRestarts + (if n == next then 1 else 0)
      && |buf| == size + |EncodeEntry(e, if n == next then 0 else Common(e.key, prev))|
    }

    /** Adds an entry. Offsets are kept in 32 bits. */
    method Add(key: InternalKey, value: Bytes)
      requires Valid() && |buf| < 0x1_0000_0000
      requires |key.userKey| + 8 < 0x1_0000_0000 && |value| < 0x1_0000_0000
      modifies this
      ensures Valid() && layout.entries == old(layout.entries) + [Entry(key.Encode(), value)]
      ensures Grown(old(nEntries), old(nextRestart), old(|buf|), old(|restarts|), Entry(key.Encode(), value), old(curKey))
    {
      prevKey := curKey;
      curKey := key.Encode();
      Store(value);
    }

    method Store(value: Bytes)
      requires Holds(layout, buf, restarts, restartInterval, nextRestart) && Compressed(layout)
      requires nEntries == |layout.entries|
      requires nEntries > 0 ==> prevKey == layout.entries[nEntries - 1].key
      requires |buf| < 0x1_0000_0000 && |curKey| < 0x1_0000_0000 && |value| < 0x1_0000_0000
      modifies this
      ensures Valid() && layout.entries == old(layout.entries) + [Entry(old(curKey), value)]
      ensures Grown(old(nEntries), old(nextRestart), old(|buf|), old(|restarts|), Entry(old(curKey), value), old(prevKey))
    {
      hide EncodeEntry, Holds, Compressed;
      var shared := 0;
      var restart := nEntries == nextRestart;
      if restart {
        nextRestart := nEntries + restartInterval;
        restarts := restarts + [|buf| % 0x1_0000_0000];
      } else {
        shared := SharedPrefixLen(curKey, prevKey);
        LongestIsCommon(curKey, prevKey, shared);
      }
      var entry := Entry(curKey, value);
      AddHolds(layout, buf, old(restarts), restartInterval, old(nextRestart), entry, shared);
      AddCompressed(layout, entry, shared, restart);
      buf := PutEntry(buf, entry, shared);
      nEntries := nEntries + 1;
      layout := AddEntry(layout, entry, shared, restart);
    }

    /** Ends the block and makes the writer ready for the next one. */
    method Finish() returns (block: Bytes)
      requires Valid()
      modifies this
      ensures old(layout).Valid() && Compressed(old(layout)) && block == old(layout).Block()
      ensures |block| == old(|buf|) + 4 * (if old(nEntries) == 0 then 1 else old(|restarts|)) + 4
      ensures Valid() && layout.entries == []
    {
      hide Holds, EncodeRestarts, PutLE, Layout.Block;
      HoldsBlock(layout, buf, restarts, restartInterval, nextRestart);
      HoldsNothing(restartInterval);
      if nEntries == 0 { restarts := [0]; }
      block := PutRestarts(buf, restarts);
      block := block + PutLE(|restarts|, 4);
      nEntries, nextRestart, buf, restarts := 0, 0, [], [];
      layout := Layout([], [], []);
    }
  }
}
