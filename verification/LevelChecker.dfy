/** level_checker.go: whether the range tombstones of all levels are consistent. */
module LevelChecker {
  import opened Wrappers
  import opened InternalKeys

  datatype Tomb = Tomb(start: Key, end: Key, seqNum: nat, level: nat) {
    predicate Contains(key: Key) { start <= key < end }
    predicate Like(t: Tomb) { seqNum == t.seqNum && level == t.level }
  }

  /** Some tombstone with this sequence number and level covers the key. */
  ghost predicate Covers(tombs: seq<Tomb>, key: Key, seqNum: nat, level: nat) {
    exists t :: t in tombs && t.Contains(key) && t.seqNum == seqNum && t.level == level
  }

  predicate Proper(tombs: seq<Tomb>) {
    forall t :: t in tombs ==> t.start < t.end
  }

  /** Where tombstones cover a common key, the newer one is at no deeper a level. */
  ghost predicate Consistent(tombs: seq<Tomb>) {
    forall key, s, l, s', l' :: Covers(tombs, key, s, l) && Covers(tombs, key, s', l') && s > s' ==> l <= l'
  }

  /** Tombstones with one sequence number that cover a common key are at one level. */
  ghost predicate NoTies(tombs: seq<Tomb>) {
    forall key, s, l, l' :: Covers(tombs, key, s, l) && Covers(tombs, key, s, l') ==> l == l'
  }

  // --- collectAllUserKeys -----------------------------------------------------------------

  ghost predicate Sorted(keys: seq<Key>) {
    forall i, j :: 0 <= i < j < |keys| ==> keys[i] <= keys[j]
  }

  ghost predicate StrictlySorted(keys: seq<Key>) {
    forall i, j :: 0 <= i < j < |keys| ==> keys[i] < keys[j]
  }

  ghost predicate IsEndpoint(tombs: seq<Tomb>, key: Key) {
    exists t :: t in tombs && (t.start == key || t.end == key)
  }

  method SortKeys(keys: seq<Key>) returns (sorted: seq<Key>)
    ensures Sorted(sorted) && forall k :: k in sorted <==> k in keys
  {
    sorted := [];
    for i := 0 to |keys|
      invariant Sorted(sorted) && forall k :: k in sorted <==> k in keys[..i]
    {
      assert keys[..i + 1] == keys[..i] + [keys[i]];
      sorted := InsertKey(sorted, keys[i]);
    }
  }

  method InsertKey(sorted: seq<Key>, key: Key) returns (r: seq<Key>)
    requires Sorted(sorted)
    ensures Sorted(r) && forall k :: k in r <==> k in sorted || k == key
  {
    var n := 0;
    while n < |sorted| && sorted[n] <= key
      invariant n <= |sorted| && forall m :: 0 <= m < n ==> sorted[m] <= key
    {
      n := n + 1;
    }
    r := sorted[..n] + [key] + sorted[n..];
    KeyInserted(sorted, key, n);
  }

  lemma {:induction false} KeyInserted(sorted: seq<Key>, key: Key, n: nat)
    requires n <= |sorted|
    ensures forall k :: k in sorted[..n] + [key] + sorted[n..] <==> k in sorted || k == key
  {
    assert sorted == sorted[..n] + sorted[n..];
  }

  /** Drops repeated keys in the array that holds them. */
  method Dedup(keys: array<Key>) returns (n: nat)
    requires Sorted(keys[..])
    modifies keys
    ensures n <= keys.Length && StrictlySorted(keys[..n])
    ensures forall k :: k in keys[..n] <==> k in old(keys[..])
  {
    var last := -1;
    var curr := 0;
    while curr < keys.Length
      invariant -1 <= last < curr <= keys.Length && (curr > 0 ==> last >= 0 && keys[last] == old(keys[curr - 1]))
      invariant forall i :: curr <= i < keys.Length ==> keys[i] == old(keys[i])
      invariant StrictlySorted(keys[..last + 1])
      invariant forall k :: k in keys[..last + 1] <==> k in old(keys[..curr])
    {
      assert old(keys[..curr + 1]) == old(keys[..curr]) + [keys[curr]];
      assert curr > 0 ==> old(keys[..])[curr - 1] <= old(keys[..])[curr];
      ghost var before := keys[..last + 1];
      assert last >= 0 ==> keys[last] in before;
      if last < 0 || keys[last] != keys[curr] {
        last := last + 1;
        keys[last] := keys[curr];
        assert keys[..last + 1] == before + [keys[last]];
      }
      curr := curr + 1;
    }
    n := last + 1;
    assert old(keys[..curr]) == old(keys[..]);
  }

  method CollectAllUserKeys(tombs: seq<Tomb>) returns (keys: seq<Key>)
    ensures StrictlySorted(keys) && forall k :: k in keys <==> IsEndpoint(tombs, k)
  {
    keys := [];
    for i := 0 to |tombs|
      invariant forall k :: k in keys <==> IsEndpoint(tombs[..i], k)
    {
      assert tombs[..i + 1] == tombs[..i] + [tombs[i]];
      keys := keys + [tombs[i].start];
      keys := keys + [tombs[i].end];
      forall k ensures k in keys <==> IsEndpoint(tombs[..i + 1], k) { EndpointAdd(tombs[..i], tombs[i], k); }
    }
    assert tombs[..|tombs|] == tombs;
    keys := SortKeys(keys);
    var a := new Key[|keys|](i requires 0 <= i < |keys| => keys[i]);
    assert a[..] == keys;
    var n := Dedup(a);
    keys := a[..n];
  }

  lemma {:induction false} EndpointAdd(tombs: seq<Tomb>, t: Tomb, k: Key)
    ensures IsEndpoint(tombs + [t], k) <==> IsEndpoint(tombs, k) || k == t.start || k == t.end
  {
    if IsEndpoint(tombs, k) {
      var u :| u in tombs && (u.start == k || u.end == k);
      assert u in tombs + [t];
    }
    if k == t.start || k == t.end { assert t in tombs + [t]; }
  }

  // --- fragmentUsingUserKeys ----------------------------------------------------------------

  /** From one key to the next. */
  ghost predicate Elementary(f: Tomb, keys: seq<Key>) {
    && f.start < f.end && f.start in keys && f.end in keys
    && forall k :: k in keys ==> k <= f.start || f.end <= k
  }

  /** Fragments that make up [start, end) of a tombstone. */
  ghost predicate Tiles(frags: seq<Tomb>, t: Tomb, start: Key, end: Key, keys: seq<Key>) {
    && (forall f :: f in frags ==> f.Like(t) && Elementary(f, keys))
    && (forall key :: InSome(frags, key) <==> start <= key < end)
  }

  ghost predicate InSome(frags: seq<Tomb>, key: Key) {
    exists f :: f in frags && f.Contains(key)
  }

  lemma {:induction false} TilesAdd(frags: seq<Tomb>, t: Tomb, start: Key, end: Key, f: Tomb, keys: seq<Key>)
    requires Tiles(frags, t, start, f.start, keys) && start <= f.start && f.end == end && f.Like(t)
    requires Elementary(f, keys)
    ensures Tiles(frags + [f], t, start, end, keys)
  {
    forall key ensures InSome(frags + [f], key) <==> start <= key < end {
      if InSome(frags, key) {
        var g :| g in frags && g.Contains(key);
        assert g in frags + [f];
      }
      if f.Contains(key) { assert f in frags + [f]; }
    }
  }

  /** Cuts a tombstone at every key inside it. */
  method FragmentOne(t: Tomb, keys: seq<Key>) returns (frags: seq<Tomb>)
    requires t.start < t.end && StrictlySorted(keys) && t.start in keys && t.end in keys
    ensures Tiles(frags, t, t.start, t.end, keys)
  {
    hide Tiles;
    var i := FirstAfter(keys, t.start);
    var start := t.start;
    frags := [];
    TilesNone(t, keys);
    while i < |keys| && keys[i] < t.end
      invariant i <= |keys| && t.start <= start < t.end && start in keys
      invariant (forall k :: 0 <= k < |keys| ==> (k < i <==> keys[k] <= start))
      invariant Tiles(frags, t, t.start, start, keys)
    {
      var partial := Tomb(start, keys[i], t.seqNum, t.level);
      IsElementary(partial, keys, i);
      TilesAdd(frags, t, t.start, keys[i], partial, keys);
      frags := frags + [partial];
      start := keys[i];
      i := i + 1;
    }
    var rest := Tomb(start, t.end, t.seqNum, t.level);
    EndIsNext(keys, i, start, t.end);
    IsElementary(rest, keys, i);
    TilesAdd(frags, t, t.start, t.end, rest, keys);
    frags := frags + [rest];
  }

  method FirstAfter(keys: seq<Key>, key: Key) returns (n: nat)
    requires StrictlySorted(keys)
    ensures n <= |keys| && forall k :: 0 <= k < |keys| ==> (k < n <==> keys[k] <= key)
  {
    n := 0;
    var upper := |keys|;
    while n < upper
      invariant n <= upper <= |keys|
      invariant forall k :: 0 <= k < n ==> keys[k] <= key
      invariant forall k :: upper <= k < |keys| ==> key < keys[k]
    {
      var h := (n + upper) / 2;
      if key < keys[h] { upper := h; } else { n := h + 1; }
    }
  }

  lemma {:induction false} TilesNone(t: Tomb, keys: seq<Key>)
    ensures Tiles([], t, t.start, t.start, keys)
  {
  }

  lemma {:induction false} IsElementary(f: Tomb, keys: seq<Key>, i: nat)
    requires StrictlySorted(keys) && i < |keys| && f.start in keys && f.end == keys[i] && f.start < f.end
    requires forall k :: 0 <= k < |keys| ==> (k < i <==> keys[k] <= f.start)
    ensures Elementary(f, keys)
  {
    forall k | k in keys ensures k <= f.start || f.end <= k {
      var j :| 0 <= j < |keys| && keys[j] == k;
    }
  }

  lemma {:induction false} EndIsNext(keys: seq<Key>, i: nat, start: Key, end: Key)
    requires StrictlySorted(keys) && i <= |keys| && end in keys && start < end && (i < |keys| ==> keys[i] >= end)
    requires forall k :: 0 <= k < |keys| ==> (k < i <==> keys[k] <= start)
    ensures i < |keys| && keys[i] == end
  {
    var j :| 0 <= j < |keys| && keys[j] == end;
  }

  /** The fragments cover what the tombstones cover, and each runs from one key to the next. */
  ghost predicate IsFragmentation(tombs: seq<Tomb>, frags: seq<Tomb>, keys: seq<Key>) {
    && (forall f :: f in frags ==> Elementary(f, keys))
    && forall key, s, l :: Covers(frags, key, s, l) <==> Covers(tombs, key, s, l)
  }

  lemma {:induction false} FragmentAdd(tombs: seq<Tomb>, frags: seq<Tomb>, keys: seq<Key>, t: Tomb, more: seq<Tomb>)
    requires IsFragmentation(tombs, frags, keys) && Tiles(more, t, t.start, t.end, keys)
    ensures IsFragmentation(tombs + [t], frags + more, keys)
  {
    forall key, s, l ensures Covers(frags + more, key, s, l) <==> Covers(tombs + [t], key, s, l) {
      CoversAppend(frags, more, key, s, l);
      CoversAppend(tombs, [t], key, s, l);
      TilesCover(more, t, keys, key, s, l);
    }
  }

  lemma {:induction false} CoversAppend(a: seq<Tomb>, b: seq<Tomb>, key: Key, s: nat, l: nat)
    ensures Covers(a + b, key, s, l) <==> Covers(a, key, s, l) || Covers(b, key, s, l)
  {
    if Covers(a, key, s, l) {
      var t :| t in a && t.Contains(key) && t.seqNum == s && t.level == l;
      assert t in a + b;
    }
    if Covers(b, key, s, l) {
      var t :| t in b && t.Contains(key) && t.seqNum == s && t.level == l;
      assert t in a + b;
    }
  }

  lemma {:induction false} TilesCover(more: seq<Tomb>, t: Tomb, keys: seq<Key>, key: Key, s: nat, l: nat)
    requires Tiles(more, t, t.start, t.end, keys)
    ensures Covers(more, key, s, l) <==> Covers([t], key, s, l)
  {
    if Covers(more, key, s, l) {
      var f :| f in more && f.Contains(key) && f.seqNum == s && f.level == l;
      assert InSome(more, key) && t in [t];
    }
    if Covers([t], key, s, l) {
      assert InSome(more, key);
      var f :| f in more && f.Contains(key);
    }
  }

  method FragmentUsingUserKeys(tombs: seq<Tomb>, keys: seq<Key>) returns (frags: seq<Tomb>)
    requires Proper(tombs) && StrictlySorted(keys) && forall k :: k in keys <==> IsEndpoint(tombs, k)
    ensures IsFragmentation(tombs, frags, keys)
  {
    hide Tiles, IsFragmentation;
    frags := [];
    FragmentNone(keys);
    for i := 0 to |tombs|
      invariant IsFragmentation(tombs[..i], frags, keys)
    {
      assert tombs[i] in tombs;
      var more := FragmentOne(tombs[i], keys);
      FragmentAdd(tombs[..i], frags, keys, tombs[i], more);
      assert tombs[..i + 1] == tombs[..i] + [tombs[i]];
      frags := frags + more;
    }
    assert tombs[..|tombs|] == tombs;
  }

  lemma {:induction false} FragmentNone(keys: seq<Key>)
    ensures IsFragmentation([], [], keys)
  {
  }

  /** Two fragments have the same range or no key in common. */
  lemma {:induction false} SameOrDisjoint(f: Tomb, g: Tomb, keys: seq<Key>)
    requires Elementary(f, keys) && Elementary(g, keys)
    ensures (f.start == g.start && f.end == g.end) || f.end <= g.start || g.end <= f.start
  {
  }

  // --- iterateAndCheckTombstones -------------------------------------------------------------

  /** By start key, and newest first from one start key. */
  predicate NotAfter(a: Tomb, b: Tomb) {
    a.start < b.start || (a.start == b.start && a.seqNum >= b.seqNum)
  }

  ghost predicate InScanOrder(tombs: seq<Tomb>) {
    forall i, j :: 0 <= i < j < |tombs| ==> NotAfter(tombs[i], tombs[j])
  }

  method SortTombs(tombs: seq<Tomb>) returns (sorted: seq<Tomb>)
    ensures InScanOrder(sorted) && forall t :: t in sorted <==> t in tombs
  {
    sorted := [];
    for i := 0 to |tombs|
      invariant InScanOrder(sorted) && forall t :: t in sorted <==> t in tombs[..i]
    {
      var n := 0;
      while n < |sorted| && NotAfter(sorted[n], tombs[i])
        invariant n <= |sorted| && forall m :: 0 <= m < n ==> NotAfter(sorted[m], tombs[i])
      {
        n := n + 1;
      }
      assert sorted == sorted[..n] + sorted[n..];
      assert tombs[..i + 1] == tombs[..i] + [tombs[i]];
      sorted := sorted[..n] + [tombs[i]] + sorted[n..];
    }
  }

  /** No level goes up from one tombstone to a later one with the same start key. */
  ghost predicate LevelsAscend(tombs: seq<Tomb>) {
    forall i, j :: 0 <= i < j < |tombs| && tombs[i].start == tombs[j].start ==> tombs[i].level <= tombs[j].level
  }

  method Scan(tombs: seq<Tomb>) returns (ok: bool)
    requires InScanOrder(tombs)
    ensures ok <==> LevelsAscend(tombs)
  {
    var last := None;
    for i := 0 to |tombs|
      invariant last == if i == 0 then None else Some(tombs[i - 1])
      invariant LevelsAscend(tombs[..i])
    {
      var t := tombs[i];
      if last.Some? && last.value.start == t.start && last.value.level > t.level {
        assert !LevelsAscend(tombs);
        return false;
      }
      LevelsAscendAdd(tombs, i);
      last := Some(t);
    }
    assert tombs[..|tombs|] == tombs;
    return true;
  }

  lemma {:induction false} LevelsAscendAdd(tombs: seq<Tomb>, n: nat)
    requires InScanOrder(tombs) && n < |tombs| && LevelsAscend(tombs[..n])
    requires n > 0 && tombs[n - 1].start == tombs[n].start ==> tombs[n - 1].level <= tombs[n].level
    ensures LevelsAscend(tombs[..n + 1])
  {
    forall i | 0 <= i < n && tombs[i].start == tombs[n].start ensures tombs[i].level <= tombs[n].level {
      assert NotAfter(tombs[i], tombs[n]);
      if i < n - 1 {
        assert NotAfter(tombs[i], tombs[n - 1]) && NotAfter(tombs[n - 1], tombs[n]);
        assert tombs[..n][i].level <= tombs[..n][n - 1].level;
      }
    }
  }

  lemma {:induction false} AscendingIsConsistent(tombs: seq<Tomb>, frags: seq<Tomb>, keys: seq<Key>)
    requires IsFragmentation(tombs, frags, keys) && InScanOrder(frags) && LevelsAscend(frags)
    ensures Consistent(tombs)
  {
    forall key, s, l, s', l' | Covers(tombs, key, s, l) && Covers(tombs, key, s', l') && s > s' ensures l <= l' {
      var i, j := FragmentsAt(tombs, frags, keys, key, s, l, s', l');
      assert i < j || !NotAfter(frags[j], frags[i]);
    }
  }

  /** The fragments of two tombstones at a key, which start at one key. */
  lemma {:induction false} FragmentsAt(
      tombs: seq<Tomb>, frags: seq<Tomb>, keys: seq<Key>, key: Key, s: nat, l: nat, s': nat, l': nat)
    returns (i: nat, j: nat)
    requires IsFragmentation(tombs, frags, keys) && Covers(tombs, key, s, l) && Covers(tombs, key, s', l')
    ensures i < |frags| && frags[i].Contains(key) && frags[i].seqNum == s && frags[i].level == l
    ensures j < |frags| && frags[j].Contains(key) && frags[j].seqNum == s' && frags[j].level == l'
    ensures frags[i].start == frags[j].start
  {
    assert Covers(frags, key, s, l) && Covers(frags, key, s', l');
    var f :| f in frags && f.Contains(key) && f.seqNum == s && f.level == l;
    var g :| g in frags && g.Contains(key) && g.seqNum == s' && g.level == l';
    SameOrDisjoint(f, g, keys);
    i :| 0 <= i < |frags| && frags[i] == f;
    j :| 0 <= j < |frags| && frags[j] == g;
  }

  lemma {:induction false} ConsistentIsAscending(tombs: seq<Tomb>, frags: seq<Tomb>, keys: seq<Key>)
    requires IsFragmentation(tombs, frags, keys) && InScanOrder(frags) && Consistent(tombs) && NoTies(tombs)
    ensures LevelsAscend(frags)
  {
    forall i, j | 0 <= i < j < |frags| && frags[i].start == frags[j].start ensures frags[i].level <= frags[j].level {
      var f, g := frags[i], frags[j];
      assert NotAfter(f, g) && f in frags && g in frags;
      assert Elementary(f, keys) && Elementary(g, keys);
      assert Covers(frags, f.start, f.seqNum, f.level) && Covers(frags, f.start, g.seqNum, g.level);
    }
  }

  /**
   * The check of the range tombstones of all levels. What it accepts is consistent. What it refuses is inconsistent
   * unless two tombstones with one sequence number at different levels cover a common key.
   */
  method CheckRangeTombstones(tombs: seq<Tomb>) returns (ok: bool)
    requires Proper(tombs)
    ensures ok ==> Consistent(tombs)
    ensures NoTies(tombs) ==> (ok <==> Consistent(tombs))
  {
    hide Consistent, NoTies, InScanOrder, LevelsAscend, Covers, Elementary;
    var keys := CollectAllUserKeys(tombs);
    var frags := FragmentUsingUserKeys(tombs, keys);
    var sorted := SortTombs(frags);
    SameFragments(tombs, frags, sorted, keys);
    ok := Scan(sorted);
    if ok {
      AscendingIsConsistent(tombs, sorted, keys);
    } else if NoTies(tombs) && Consistent(tombs) {
      ConsistentIsAscending(tombs, sorted, keys);
    }
  }

  lemma {:induction false} SameFragments(tombs: seq<Tomb>, frags: seq<Tomb>, sorted: seq<Tomb>, keys: seq<Key>)
    requires IsFragmentation(tombs, frags, keys) && forall t :: t in sorted <==> t in frags
    ensures IsFragmentation(tombs, sorted, keys)
  {
    forall key, s, l ensures Covers(sorted, key, s, l) <==> Covers(tombs, key, s, l) {
      assert Covers(sorted, key, s, l) <==> Covers(frags, key, s, l);
    }
  }

  ghost predicate IsOrderOf(order: seq<Tomb>, frags: seq<Tomb>) {
    InScanOrder(order) && multiset(order) == multiset(frags)
  }

  /**
   * Sorting leaves ties in any order. The scan accepts the fragments in all these orders if and only if the tombstones
   * are consistent without ties.
   */
  lemma {:induction false} AcceptedInEveryOrder(tombs: seq<Tomb>, frags: seq<Tomb>, keys: seq<Key>)
    requires IsFragmentation(tombs, frags, keys) && InScanOrder(frags)
    ensures (forall order :: IsOrderOf(order, frags) ==> LevelsAscend(order)) <==> Consistent(tombs) && NoTies(tombs)
  {
    assert IsOrderOf(frags, frags);
    if LevelsAscend(frags) { AscendingIsConsistent(tombs, frags, keys); }
    if !NoTies(tombs) {
      var order := RefusedOrder(tombs, frags, keys);
      assert IsOrderOf(order, frags) && !LevelsAscend(order);
    } else if Consistent(tombs) {
      forall order | IsOrderOf(order, frags) ensures LevelsAscend(order) {
        assert forall t :: t in order <==> t in multiset(frags);
        SameFragments(tombs, frags, order, keys);
        ConsistentIsAscending(tombs, order, keys);
      }
    }
  }

  lemma {:induction false} RefusedOrder(tombs: seq<Tomb>, frags: seq<Tomb>, keys: seq<Key>) returns (order: seq<Tomb>)
    requires IsFragmentation(tombs, frags, keys) && InScanOrder(frags) && !NoTies(tombs)
    ensures IsOrderOf(order, frags) && !LevelsAscend(order)
  {
    var key, s, l, l' :| Covers(tombs, key, s, l) && Covers(tombs, key, s, l') && l != l';
    var i, j := FragmentsAt(tombs, frags, keys, key, s, l, s, l');
    var first, second := if i < j then i else j, if i < j then j else i;
    if frags[first].level > frags[second].level {
      order := frags;
    } else {
      order := Swapped(frags, first, second);
      assert order[first].level > order[second].level;
    }
  }

  lemma {:induction false} Swapped(frags: seq<Tomb>, i: nat, j: nat) returns (order: seq<Tomb>)
    requires InScanOrder(frags) && i < j < |frags|
    requires frags[i].start == frags[j].start && frags[i].seqNum == frags[j].seqNum
    ensures IsOrderOf(order, frags) && |order| == |frags| && order[i] == frags[j] && order[j] == frags[i]
  {
    order := frags[i := frags[j]][j := frags[i]];
    SwapKeepsOrder(frags, order);
  }

  /** The order of the scan looks at start keys and sequence numbers only. */
  lemma {:induction false} SwapKeepsOrder(frags: seq<Tomb>, order: seq<Tomb>)
    requires InScanOrder(frags) && |order| == |frags|
    requires forall n :: 0 <= n < |frags| ==> order[n].start == frags[n].start && order[n].seqNum == frags[n].seqNum
    ensures InScanOrder(order)
  {
    forall m, n | 0 <= m < n < |order| ensures NotAfter(order[m], order[n]) {
      assert NotAfter(frags[m], frags[n]);
    }
  }

  /** A consistent tie that the scan refuses in one of the orders that sorting may leave it in, and accepts in the other. */
  lemma {:induction false} TieCounterexample()
    ensures var upper, lower := Tomb(1.0, 2.0, 5, 0), Tomb(1.0, 2.0, 5, 1);
      && Consistent([lower, upper]) && !NoTies([lower, upper])
      && InScanOrder([lower, upper]) && !LevelsAscend([lower, upper])
      && InScanOrder([upper, lower]) && LevelsAscend([upper, lower])
  {
    var upper, lower := Tomb(1.0, 2.0, 5, 0), Tomb(1.0, 2.0, 5, 1);
    var tombs := [lower, upper];
    assert upper in tombs && lower in tombs;
    assert Covers(tombs, 1.0, 5, 0) && Covers(tombs, 1.0, 5, 1);
    assert tombs[0].level > tombs[1].level;
  }
}
