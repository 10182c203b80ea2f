/** merging_iter_heap.go: the heap of level iterators. */
module MergingIterHeap {
  import opened Wrappers
  import opened InternalKeys

  datatype Item = Item(index: nat, entry: Entry)

  /** mergingIterHeap.less on two items. */
  predicate Before(a: Item, b: Item, reverse: bool) {
    if reverse then Less(b.entry, a.entry) else Less(a.entry, b.entry)
  }

  function Parent(i: nat): nat
    requires i > 0
  {
    (i - 1) / 2
  }

  /** The item at `c` does not belong above its parent. */
  ghost predicate Ok(items: seq<Item>, reverse: bool, c: nat)
    requires 0 < c < |items|
  {
    !Before(items[c], items[Parent(c)], reverse)
  }

  ghost predicate IsHeap(items: seq<Item>, reverse: bool) {
    forall c :: 0 < c < |items| ==> Ok(items, reverse, c)
  }

  /** The first `n` items are in order from the parent `lo` on, except around the item `hole`. */
  ghost predicate OkExcept(items: seq<Item>, reverse: bool, lo: nat, n: nat, hole: nat)
    requires n <= |items|
  {
    && (forall c :: 0 < c < n && Parent(c) >= lo && c != hole && Parent(c) != hole ==> Ok(items, reverse, c))
    && (forall c :: 0 < c < n && hole > 0 && Parent(c) == hole && Parent(hole) >= lo ==>
          !Before(items[c], items[Parent(hole)], reverse))
  }

  /** As OkExcept, with the children of the hole in order too. */
  ghost predicate OkBelow(items: seq<Item>, reverse: bool, lo: nat, n: nat, hole: nat)
    requires n <= |items|
  {
    forall c :: 0 < c < n && Parent(c) >= lo && c != hole ==> Ok(items, reverse, c)
  }

  lemma {:induction false} RootIsFirst(items: seq<Item>, reverse: bool, i: nat)
    requires IsHeap(items, reverse) && i < |items|
    ensures !Before(items[i], items[0], reverse)
  {
    if i > 0 {
      assert Ok(items, reverse, i);
      RootIsFirst(items, reverse, Parent(i));
    }
  }

  function Swap(items: seq<Item>, i: nat, j: nat): (r: seq<Item>)
    requires i < |items| && j < |items|
    ensures |r| == |items| && multiset(r) == multiset(items)
  {
    items[i := items[j]][j := items[i]]
  }

  class Heap {
    var items: seq<Item>
    var reverse: bool

    constructor ()
      ensures items == [] && !reverse
    {
      items, reverse := [], false;
    }

    /** Moves the item at `i0` down among the first `n`. */
    method Down(i0: nat, n: nat, ghost lo: nat) returns (moved: bool)
      requires i0 < n <= |items| && lo <= i0 && OkExcept(items, reverse, lo, n, i0)
      modifies this`items
      ensures |items| == old(|items|) && multiset(items) == old(multiset(items)) && items[n..] == old(items[n..])
      ensures moved ==> forall c :: 0 < c < n && Parent(c) >= lo ==> Ok(items, reverse, c)
      ensures !moved ==> items == old(items) && OkBelow(items, reverse, lo, n, i0)
    {
      hide Ok, OkExcept, OkBelow, Before, Parent;
      var i := i0;
      while true
        invariant i0 <= i < n <= |items| && |items| == old(|items|) && multiset(items) == old(multiset(items))
        invariant items[n..] == old(items[n..])
        invariant OkExcept(items, reverse, lo, n, i)
        invariant i == i0 ==> items == old(items)
        invariant i > i0 ==> Ok(items, reverse, i)
        decreases n - i
      {
        var j1 := 2 * i + 1;
        if j1 >= n {
          LeafExit(items, reverse, lo, n, i);
          break;
        }
        var j := j1;
        if j1 + 1 < n && Before(items[j1 + 1], items[j1], reverse) { j := j1 + 1; }
        FirstChild(items, reverse, n, i, j);
        if !Before(items[j], items[i], reverse) {
          OrderExit(items, reverse, lo, n, i, j);
          break;
        }
        SwapDown(items, reverse, lo, n, i, j);
        items := Swap(items, i, j);
        i := j;
      }
      if i > i0 { DoneBelow(items, reverse, lo, n, i); }
      return i > i0;
    }

    /** Moves the item at `j0` up. */
    method Up(j0: nat)
      requires j0 < |items| && OkBelow(items, reverse, 0, |items|, j0) && OkExcept(items, reverse, 0, |items|, j0)
      modifies this`items
      ensures multiset(items) == old(multiset(items)) && IsHeap(items, reverse)
    {
      var j: nat := j0;
      while true
        invariant 0 <= j < |items| && multiset(items) == old(multiset(items))
        invariant OkBelow(items, reverse, 0, |items|, j) && OkExcept(items, reverse, 0, |items|, j)
        decreases j
      {
        var i := if j == 0 then 0 else (j - 1) / 2;
        if i == j || !Before(items[j], items[i], reverse) { break; }
        SwapUp(items, reverse, j);
        items := Swap(items, i, j);
        j := i;
      }
    }

    /** Heapifies. */
    method Init()
      modifies this`items
      ensures multiset(items) == old(multiset(items)) && IsHeap(items, reverse)
    {
      var n := |items|;
      var i := n / 2 - 1;
      while i >= 0
        invariant -1 <= i < n && |items| == n && multiset(items) == old(multiset(items))
        invariant forall c :: 0 < c < n && Parent(c) > i ==> Ok(items, reverse, c)
      {
        var _ := Down(i, n, i);
        i := i - 1;
      }
    }

    /** Restores the order after the item at `i` was replaced. */
    method Fix(i: nat)
      requires i < |items| && OkExcept(items, reverse, 0, |items|, i)
      modifies this`items
      ensures multiset(items) == old(multiset(items)) && IsHeap(items, reverse)
    {
      var moved := Down(i, |items|, 0);
      if !moved { Up(i); }
    }

    /** Removes the root. */
    method Pop() returns (item: Item)
      requires items != [] && IsHeap(items, reverse)
      modifies this`items
      ensures item == old(items[0]) && multiset(items) == old(multiset(items)) - multiset{item}
      ensures IsHeap(items, reverse)
    {
      hide IsHeap, Ok, OkExcept, Before;
      var n := |items| - 1;
      SwapLast(items, reverse);
      items := Swap(items, 0, n);
      ghost var last := items[n..];
      assert last[0] == items[n] == old(items[0]);
      if n > 0 {
        var moved := Down(0, n, 0);
        RootDone(items, reverse, n, moved);
      }
      item := items[n];
      assert items[n..] == last && item == last[0];
      DropLast(items, reverse, n);
      items := items[..n];
    }
  }

  /** Sifting from the root leaves nothing out of order, moved or not. */
  lemma {:induction false} RootDone(items: seq<Item>, reverse: bool, n: nat, moved: bool)
    requires n <= |items|
    requires moved ==> forall c :: 0 < c < n && Parent(c) >= 0 ==> Ok(items, reverse, c)
    requires !moved ==> OkBelow(items, reverse, 0, n, 0)
    ensures forall c :: 0 < c < n ==> Ok(items, reverse, c)
  {
  }

  lemma {:induction false} DropLast(items: seq<Item>, reverse: bool, n: nat)
    requires |items| == n + 1 && forall c :: 0 < c < n ==> Ok(items, reverse, c)
    ensures IsHeap(items[..n], reverse) && multiset(items[..n]) == multiset(items) - multiset{items[n]}
  {
    assert items == items[..n] + [items[n]];
    forall c | 0 < c < n ensures Ok(items[..n], reverse, c) {
      assert Ok(items, reverse, c);
    }
  }

  lemma {:induction false} LeafExit(items: seq<Item>, reverse: bool, lo: nat, n: nat, i: nat)
    requires i < n <= |items| && 2 * i + 1 >= n && OkExcept(items, reverse, lo, n, i)
    ensures OkBelow(items, reverse, lo, n, i)
  {
  }

  lemma {:induction false} OrderExit(items: seq<Item>, reverse: bool, lo: nat, n: nat, i: nat, j: nat)
    requires i < j < n <= |items| && OkExcept(items, reverse, lo, n, i) && !Before(items[j], items[i], reverse)
    requires forall c :: 0 < c < n && Parent(c) == i ==> !Before(items[c], items[j], reverse)
    ensures OkBelow(items, reverse, lo, n, i)
  {
  }

  lemma {:induction false} DoneBelow(items: seq<Item>, reverse: bool, lo: nat, n: nat, i: nat)
    requires 0 < i < n <= |items| && OkBelow(items, reverse, lo, n, i) && Ok(items, reverse, i)
    ensures forall c :: 0 < c < n && Parent(c) >= lo ==> Ok(items, reverse, c)
  {
  }

  /** The chosen child comes before its sibling. */
  lemma {:induction false} FirstChild(items: seq<Item>, reverse: bool, n: nat, i: nat, j: nat)
    requires n <= |items| && 2 * i + 1 < n
    requires j == if 2 * i + 2 < n && Before(items[2 * i + 2], items[2 * i + 1], reverse) then 2 * i + 2 else 2 * i + 1
    ensures Parent(j) == i && forall c :: 0 < c < n && Parent(c) == i ==> !Before(items[c], items[j], reverse)
  {
    forall c | 0 < c < n && Parent(c) == i ensures !Before(items[c], items[j], reverse) {
      assert c == 2 * i + 1 || c == 2 * i + 2;
    }
  }

  /** Swapping the hole with its parent moves the hole up. */
  lemma {:induction false} SwapUp(items: seq<Item>, reverse: bool, j: nat)
    requires 0 < j < |items| && Before(items[j], items[Parent(j)], reverse)
    requires OkBelow(items, reverse, 0, |items|, j) && OkExcept(items, reverse, 0, |items|, j)
    ensures var s := Swap(items, Parent(j), j);
            OkBelow(s, reverse, 0, |s|, Parent(j)) && OkExcept(s, reverse, 0, |s|, Parent(j))
  {
    var i, s := Parent(j), Swap(items, Parent(j), j);
    forall c | 0 < c < |s| && c != i ensures Ok(s, reverse, c) {
      assert c != j ==> Ok(items, reverse, c);
    }
    forall c | 0 < c < |s| && i > 0 && Parent(c) == i ensures !Before(s[c], s[Parent(i)], reverse) {
      assert Ok(items, reverse, i);
      assert c != j ==> Ok(items, reverse, c);
    }
  }

  /** With the last item in place of the root, only the root is out of order. */
  lemma {:induction false} SwapLast(items: seq<Item>, reverse: bool)
    requires items != [] && IsHeap(items, reverse)
    ensures OkExcept(Swap(items, 0, |items| - 1), reverse, 0, |items| - 1, 0)
  {
    var s := Swap(items, 0, |items| - 1);
    forall c | 0 < c < |items| - 1 && Parent(c) != 0 ensures Ok(s, reverse, c) {
      assert Ok(items, reverse, c);
    }
  }

  /** Swapping the hole with its first child moves the hole down. */
  lemma {:induction false} SwapDown(items: seq<Item>, reverse: bool, lo: nat, n: nat, i: nat, j: nat)
    requires n <= |items| && i < j < n && Parent(j) == i && i >= lo && OkExcept(items, reverse, lo, n, i)
    requires Before(items[j], items[i], reverse)
    requires forall c :: 0 < c < n && Parent(c) == i ==> !Before(items[c], items[j], reverse)
    ensures var s := Swap(items, i, j);
            OkExcept(s, reverse, lo, n, j) && Ok(s, reverse, j) && s[n..] == items[n..]
  {
  }
}
