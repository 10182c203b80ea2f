/** internal/rangedel: searching the fragmented range tombstones of a level. */
module RangeDel {
  import opened Wrappers
  import opened InternalKeys

  /** Fragments over the same range, newest first, or one after the other. */
  ghost predicate Fragmented(tombs: seq<Tombstone>) {
    && (forall i :: 0 <= i < |tombs| ==> tombs[i].start < tombs[i].end)
    && (forall i, j :: 0 <= i < j < |tombs| ==>
          || (tombs[i].start == tombs[j].start && tombs[i].end == tombs[j].end && tombs[i].seqNum > tombs[j].seqNum)
          || tombs[i].end <= tombs[j].start)
  }

  /** All from an uncommitted batch or none. Then what is older than a fragment that is seen is seen. */
  predicate OneOrigin(tombs: seq<Tombstone>) {
    (forall t :: t in tombs ==> t.seqNum < SEQ_NUM_BATCH) || (forall t :: t in tombs ==> t.seqNum >= SEQ_NUM_BATCH)
  }

  ghost predicate CoversAt(tombs: seq<Tombstone>, key: Key, seqNum: nat) {
    exists t :: t in tombs && t.Contains(key) && t.seqNum == seqNum
  }

  /** What fragmenting keeps: which keys are covered at which sequence numbers. */
  ghost predicate SameCover(a: seq<Tombstone>, b: seq<Tombstone>) {
    forall key, seqNum :: CoversAt(a, key, seqNum) <==> CoversAt(b, key, seqNum)
  }

  lemma {:induction false} CoveredLike(a: seq<Tombstone>, b: seq<Tombstone>, key: Key, seqNum: nat, s: nat)
    requires forall n :: n > seqNum && CoversAt(a, key, n) ==> CoversAt(b, key, n)
    ensures Covered(a, key, seqNum, s) ==> Covered(b, key, seqNum, s)
  {
    if Covered(a, key, seqNum, s) {
      var t :| t in a && t.Contains(key) && t.seqNum > seqNum && Visible(t.seqNum, s);
      assert CoversAt(a, key, t.seqNum);
    }
  }

  lemma {:induction false} Counterpart(a: seq<Tombstone>, b: seq<Tombstone>, t: Tombstone, key: Key)
    returns (u: Tombstone)
    requires SameCover(a, b) && t in a && t.Contains(key)
    ensures u in b && u.Contains(key) && u.seqNum == t.seqNum
  {
    assert CoversAt(a, key, t.seqNum);
    u :| u in b && u.Contains(key) && u.seqNum == t.seqNum;
  }

  /** The fragment contains the key or lies ahead of it. */
  predicate Reaches(t: Tombstone, key: Key, reverse: bool) {
    if reverse then t.start <= key else key < t.end
  }

  /** `found` is the newest version that is seen of the nearest fragment that is seen and reaches `key`. If it does not
      reach it, then `key` has moved past it and no fragment does. */
  ghost predicate IsNearest(tombs: seq<Tombstone>, snapshot: nat, found: Option<Tombstone>, key: Key, reverse: bool)
    ensures IsNearest(tombs, snapshot, found, key, reverse) && found.Some? ==>
      found.value in tombs && Visible(found.value.seqNum, snapshot)
  {
    && (found.Some? ==> found.value in tombs && Visible(found.value.seqNum, snapshot))
    && (forall t :: t in tombs && Visible(t.seqNum, snapshot) && Reaches(t, key, reverse) ==>
          && found.Some? && (if reverse then t.start <= found.value.start else found.value.start <= t.start)
          && (found.value.start == t.start ==> found.value.seqNum >= t.seqNum))
  }

  /** Fragments that overlap have the same range. */
  lemma {:induction false} Overlap(tombs: seq<Tombstone>, t: Tombstone, u: Tombstone)
    requires Fragmented(tombs) && t in tombs && u in tombs && t.Contains(u.start)
    ensures t.start == u.start && t.end == u.end
  {
    var i :| 0 <= i < |tombs| && tombs[i] == t;
    var j :| 0 <= j < |tombs| && tombs[j] == u;
  }

  lemma {:induction false} OlderIsSeen(tombs: seq<Tombstone>, i: nat, j: nat, snapshot: nat)
    requires Fragmented(tombs) && OneOrigin(tombs) && i <= j < |tombs| && tombs[i].start == tombs[j].start
    ensures Visible(tombs[i].seqNum, snapshot) ==> Visible(tombs[j].seqNum, snapshot)
    ensures tombs[j].seqNum <= tombs[i].seqNum
  {
    assert tombs[i] in tombs && tombs[j] in tombs;
  }

  /** How many tombstones start before `key`. */
  method SearchLT(tombs: seq<Tombstone>, key: Key) returns (n: int)
    requires Fragmented(tombs)
    ensures 0 <= n <= |tombs| && forall i :: 0 <= i < |tombs| ==> (i < n <==> tombs[i].start < key)
  {
    n := 0;
    var upper := |tombs|;
    while n < upper
      invariant 0 <= n <= upper <= |tombs|
      invariant forall i :: 0 <= i < n ==> tombs[i].start < key
      invariant forall i :: upper <= i < |tombs| ==> key <= tombs[i].start
    {
      var h := (n + upper) / 2;
      if tombs[h].start < key { n := h + 1; } else { upper := h; }
    }
  }

  // --- SeekGE ------------------------------------------------------------------

  /** No fragment before `i` is seen and reaches `key`. */
  ghost predicate NoneBefore(tombs: seq<Tombstone>, key: Key, snapshot: nat, i: int) {
    forall j :: 0 <= j < |tombs| && j < i ==> !(Visible(tombs[j].seqNum, snapshot) && key < tombs[j].end)
  }

  /** The newest visible fragment that contains the key or is the first past it. */
  method SeekGE(tombs: seq<Tombstone>, key: Key, snapshot: nat) returns (found: Option<Tombstone>)
    requires Fragmented(tombs) && OneOrigin(tombs)
    ensures IsNearest(tombs, snapshot, found, key, false) && (found.Some? ==> Reaches(found.value, key, false))
  {
    hide OneOrigin, IsNearest, Visible;
    var i := SearchLT(tombs, key);
    i := i - 1;
    if i >= 0 && key < tombs[i].end {
      i := BackUpVersions(tombs, key, snapshot, i);
    } else {
      i := i + 1;
      NoneFound(tombs, key, snapshot);
      if i == |tombs| { return None; }
    }
    while !Visible(tombs[i].seqNum, snapshot)
      invariant 0 <= i < |tombs| && NoneBefore(tombs, key, snapshot, i) && key < tombs[i].end
      decreases |tombs| - i
    {
      i := i + 1;
      NoneFound(tombs, key, snapshot);
      if i == |tombs| { return None; }
    }
    FoundFirst(tombs, key, snapshot, i);
    return Some(tombs[i]);
  }

  /** Back over the versions of fragment `start` to the first or to the one after an unseen one. */
  method BackUpVersions(tombs: seq<Tombstone>, key: Key, snapshot: nat, start: nat) returns (i: int)
    requires Fragmented(tombs) && OneOrigin(tombs) && start < |tombs| && tombs[start].Contains(key)
    ensures 0 <= i <= start && key < tombs[i].end && NoneBefore(tombs, key, snapshot, i)
  {
    hide OneOrigin, Visible;
    var savedKey := tombs[start].start;
    i := start;
    while true
      invariant 0 <= i <= start && tombs[i].start == savedKey
      decreases i
    {
      i := i - 1;
      if i < 0 || tombs[i].end <= savedKey || !Visible(tombs[i].seqNum, snapshot) {
        i := i + 1;
        break;
      }
    }
    forall j | 0 <= j < i ensures !(Visible(tombs[j].seqNum, snapshot) && key < tombs[j].end) {
      if tombs[j].start == savedKey { OlderIsSeen(tombs, j, i - 1, snapshot); }
    }
  }

  lemma {:induction false} NoneFound(tombs: seq<Tombstone>, key: Key, snapshot: nat)
    ensures NoneBefore(tombs, key, snapshot, |tombs|) ==> IsNearest(tombs, snapshot, None, key, false)
  {
  }

  lemma {:induction false} FoundFirst(tombs: seq<Tombstone>, key: Key, snapshot: nat, i: nat)
    requires Fragmented(tombs) && i < |tombs| && NoneBefore(tombs, key, snapshot, i)
    requires Visible(tombs[i].seqNum, snapshot)
    ensures IsNearest(tombs, snapshot, Some(tombs[i]), key, false)
  {
  }

  // --- SeekLE ------------------------------------------------------------------

  /** No fragment from `i` on is seen and reaches back to `key`. */
  ghost predicate NoneFrom(tombs: seq<Tombstone>, key: Key, snapshot: nat, i: int) {
    forall j :: 0 <= j < |tombs| && i <= j ==> !(Visible(tombs[j].seqNum, snapshot) && tombs[j].start <= key)
  }

  /** Fragment `i` starts at `key`, and its newer versions are unseen. */
  ghost predicate StartsAt(tombs: seq<Tombstone>, key: Key, snapshot: nat, n: int, i: int) {
    && 0 <= n <= i <= |tombs| && (forall j :: 0 <= j < n ==> tombs[j].start < key)
    && forall j :: n <= j < i ==> tombs[j].start == key && !Visible(tombs[j].seqNum, snapshot)
  }

  /** The newest visible fragment that contains the key or is the last before it. */
  method SeekLE(tombs: seq<Tombstone>, key: Key, snapshot: nat) returns (found: Option<Tombstone>)
    requires Fragmented(tombs) && OneOrigin(tombs)
    ensures IsNearest(tombs, snapshot, found, key, true) && (found.Some? ==> Reaches(found.value, key, true))
  {
    hide OneOrigin, IsNearest, Visible, StartsAt;
    var n := SearchLT(tombs, key);
    var i := n - 1;
    NoneLeft(tombs, key, snapshot);
    NoneYet(tombs, key, snapshot, n);
    if i < 0 {
      i := FirstVisibleAt(tombs, key, snapshot, n);
      if i == |tombs| || key < tombs[i].start {
        NoneAt(tombs, key, snapshot, n, i);
        return None;
      }
      FoundAt(tombs, key, snapshot, n, i);
      return Some(tombs[i]);
    }
    if tombs[i].end <= key {
      i := FirstVisibleAt(tombs, key, snapshot, n);
      if i < |tombs| && tombs[i].start <= key {
        FoundAt(tombs, key, snapshot, n, i);
        return Some(tombs[i]);
      }
      NoneAt(tombs, key, snapshot, n, i);
      i := i - 1;
    }
    found := LastVisible(tombs, key, snapshot, i);
  }

  /** From fragment `n` on, the first that is seen among those that start at `key`, or the first past them. */
  method FirstVisibleAt(tombs: seq<Tombstone>, key: Key, snapshot: nat, n: nat) returns (i: nat)
    requires Fragmented(tombs) && StartsAt(tombs, key, snapshot, n, n) && (n < |tombs| ==> key <= tombs[n].start)
    ensures n <= i <= |tombs| && StartsAt(tombs, key, snapshot, n, i)
    ensures i < |tombs| && tombs[i].start <= key ==> tombs[i].start == key && Visible(tombs[i].seqNum, snapshot)
  {
    i := n;
    while i < |tombs| && tombs[i].start <= key && !Visible(tombs[i].seqNum, snapshot)
      invariant n <= i <= |tombs| && StartsAt(tombs, key, snapshot, n, i) && (i < |tombs| ==> key <= tombs[i].start)
    {
      i := i + 1;
    }
  }

  lemma {:induction false} NoneYet(tombs: seq<Tombstone>, key: Key, snapshot: nat, n: nat)
    requires n <= |tombs| && forall i :: 0 <= i < |tombs| ==> (i < n <==> tombs[i].start < key)
    ensures StartsAt(tombs, key, snapshot, n, n)
  {
  }

  /** Past the unseen fragments that start at `key`, and before them, nothing else starts by it. */
  lemma {:induction false} NoneAt(tombs: seq<Tombstone>, key: Key, snapshot: nat, n: nat, i: nat)
    requires Fragmented(tombs) && StartsAt(tombs, key, snapshot, n, i) && (i < |tombs| ==> key < tombs[i].start)
    ensures NoneFrom(tombs, key, snapshot, n)
    ensures n > 0 ==> i > 0 && tombs[i - 1].start <= key && NoneFrom(tombs, key, snapshot, i)
  {
  }

  /** Walks back from fragment `start` to the newest version of the first fragment that is seen. */
  method LastVisible(tombs: seq<Tombstone>, key: Key, snapshot: nat, start: nat) returns (found: Option<Tombstone>)
    requires Fragmented(tombs) && OneOrigin(tombs) && start < |tombs| && tombs[start].start <= key
    requires NoneFrom(tombs, key, snapshot, start + 1)
    ensures IsNearest(tombs, snapshot, found, key, true) && (found.Some? ==> Reaches(found.value, key, true))
  {
    hide OneOrigin, IsNearest, Visible;
    NoneLeft(tombs, key, snapshot);
    var i: int := start;
    while !Visible(tombs[i].seqNum, snapshot)
      invariant 0 <= i < |tombs| && tombs[i].start <= key && NoneFrom(tombs, key, snapshot, i + 1)
      decreases i
    {
      i := i - 1;
      if i < 0 { return None; }
    }
    found := NewestVersion(tombs, key, snapshot, i);
  }

  /** Walks back from fragment `last` to its newest version that is seen. */
  method NewestVersion(tombs: seq<Tombstone>, key: Key, snapshot: nat, last: nat) returns (found: Option<Tombstone>)
    requires Fragmented(tombs) && OneOrigin(tombs) && last < |tombs| && Visible(tombs[last].seqNum, snapshot)
    requires tombs[last].start <= key && NoneFrom(tombs, key, snapshot, last + 1)
    ensures IsNearest(tombs, snapshot, found, key, true) && found.Some? && found.value.start == tombs[last].start
  {
    hide OneOrigin, IsNearest, Visible;
    var i: int := last;
    var t := tombs[last];
    while true
      invariant 0 <= i <= last && t == tombs[i] && t.start == tombs[last].start && Visible(t.seqNum, snapshot)
      decreases i
    {
      i := i - 1;
      if i < 0 || !Visible(tombs[i].seqNum, snapshot) || t.start != tombs[i].start { break; }
      t := Tombstone(t.start, t.end, tombs[i].seqNum);
    }
    FoundLast(tombs, key, snapshot, i + 1, last);
    return Some(t);
  }

  lemma {:induction false} NoneLeft(tombs: seq<Tombstone>, key: Key, snapshot: nat)
    ensures NoneFrom(tombs, key, snapshot, 0) ==> IsNearest(tombs, snapshot, None, key, true)
  {
  }

  lemma {:induction false} FoundAt(tombs: seq<Tombstone>, key: Key, snapshot: nat, n: nat, i: nat)
    requires Fragmented(tombs) && i < |tombs| && StartsAt(tombs, key, snapshot, n, i)
    requires Visible(tombs[i].seqNum, snapshot) && tombs[i].start == key
    ensures IsNearest(tombs, snapshot, Some(tombs[i]), key, true)
  {
  }

  lemma {:induction false} FoundLast(tombs: seq<Tombstone>, key: Key, snapshot: nat, i: nat, last: nat)
    requires Fragmented(tombs) && OneOrigin(tombs) && i <= last < |tombs| && tombs[i].start == tombs[last].start
    requires Visible(tombs[i].seqNum, snapshot) && NoneFrom(tombs, key, snapshot, last + 1)
    requires i > 0 ==> !Visible(tombs[i - 1].seqNum, snapshot) || tombs[i - 1].start != tombs[i].start
    ensures IsNearest(tombs, snapshot, Some(tombs[i]), key, true)
  {
    hide Visible, OneOrigin;
    forall t | t in tombs && Visible(t.seqNum, snapshot) && t.start <= key
      ensures t.start <= tombs[i].start && (tombs[i].start == t.start ==> tombs[i].seqNum >= t.seqNum)
    {
      var j :| 0 <= j < |tombs| && tombs[j] == t;
      assert j <= last;
      if j < i && t.start == tombs[i].start { OlderIsSeen(tombs, j, i - 1, snapshot); }
    }
  }

  // --- Get ---------------------------------------------------------------------

  /** The newest tombstone seen at `snapshot` that contains `key`. */
  ghost predicate IsNewest(tombs: seq<Tombstone>, key: Key, snapshot: nat, found: Option<Tombstone>) {
    && (found.Some? ==> found.value in tombs && found.value.Contains(key) && Visible(found.value.seqNum, snapshot))
    && (forall t :: t in tombs && t.Contains(key) && Visible(t.seqNum, snapshot) ==> found.Some? && t.seqNum <= found.value.seqNum)
  }

  method Get(tombs: seq<Tombstone>, key: Key, snapshot: nat) returns (found: Option<Tombstone>)
    requires Fragmented(tombs) && OneOrigin(tombs)
    ensures IsNewest(tombs, key, snapshot, found)
  {
    var index := FindContaining(tombs, key, snapshot);
    if index == |tombs| { return None; }
    while !Visible(tombs[index].seqNum, snapshot)
      invariant 0 <= index < |tombs| && tombs[index].Contains(key)
      invariant forall i :: 0 <= i < index && tombs[i].Contains(key) ==> !Visible(tombs[i].seqNum, snapshot)
      decreases |tombs| - index
    {
      index := index + 1;
      if index == |tombs| || key < tombs[index].start { return None; }
    }
    found := Some(tombs[index]);
  }

  /** A fragment that contains `key` with only unseen ones before it, or the end if none contains it. */
  method FindContaining(tombs: seq<Tombstone>, key: Key, snapshot: nat) returns (index: int)
    requires Fragmented(tombs) && OneOrigin(tombs)
    ensures 0 <= index <= |tombs|
    ensures index < |tombs| ==> tombs[index].Contains(key)
    ensures index == |tombs| ==> forall i :: 0 <= i < |tombs| ==> !tombs[i].Contains(key)
    ensures forall i :: 0 <= i < index && tombs[i].Contains(key) ==> !Visible(tombs[i].seqNum, snapshot)
  {
    index := SearchLT(tombs, key);
    index := index - 1;
    if index < 0 {
      index := 0;
      if index == |tombs| || key < tombs[index].start { return |tombs|; }
    }
    if key < tombs[index].end {
      index := BackUp(tombs, key, snapshot, index);
      return;
    }
    while tombs[index].end <= key
      invariant 0 <= index < |tombs| && forall i :: 0 <= i < index ==> !tombs[i].Contains(key)
      invariant tombs[index].start <= key
      decreases |tombs| - index
    {
      index := index + 1;
      if index == |tombs| || key < tombs[index].start { return |tombs|; }
    }
  }

  /** Back over the fragments that contain `key` to the first or to the one after an unseen one. */
  method BackUp(tombs: seq<Tombstone>, key: Key, snapshot: nat, start: nat) returns (index: nat)
    requires Fragmented(tombs) && OneOrigin(tombs) && start < |tombs| && tombs[start].Contains(key)
    ensures index <= start && tombs[index].Contains(key)
    ensures forall i :: 0 <= i < index && tombs[i].Contains(key) ==> !Visible(tombs[i].seqNum, snapshot)
  {
    index := start;
    while true
      invariant index <= start && tombs[index].Contains(key)
      decreases index
    {
      if index == 0 || tombs[index - 1].end <= key || !Visible(tombs[index - 1].seqNum, snapshot) { return; }
      index := index - 1;
    }
  }
}
