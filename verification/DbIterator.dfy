/** iterator.go: the user-facing iterator over the internal entries of one read. */
module DbIterator {
  import opened Wrappers
  import opened InternalKeys
  import M = MergingIter
  import I = InternalIter

  // --- the map that is iterated over ---------------------------------------

  /** The value that the versions of `key` in `es` add up to. */
  ghost function Lookup(es: seq<Entry>, merge: Merger, key: Key): Option<Value> {
    if es == [] then None
    else if es[0].key == key then Apply(merge, es[0], Lookup(es[1..], merge, key))
    else Lookup(es[1..], merge, key)
  }

  ghost predicate Live(es: seq<Entry>, merge: Merger, key: Key) {
    Lookup(es, merge, key).Some?
  }

  datatype Bound = All | AtLeast(key: Key) | MoreThan(key: Key) | LessThan(key: Key) | Nothing {
    predicate Admits(k: Key) {
      match this
      case All => true
      case AtLeast(key) => key <= k
      case MoreThan(key) => key < k
      case LessThan(key) => k < key
      case Nothing => false
    }
  }

  datatype Cursor = BeforeFirst | At(key: Key) | AfterLast

  function NextBound(c: Cursor): Bound {
    match c case BeforeFirst => All case At(k) => MoreThan(k) case AfterLast => Nothing
  }

  function PrevBound(c: Cursor): Bound {
    match c case BeforeFirst => Nothing case At(k) => LessThan(k) case AfterLast => All
  }

  ghost predicate Least(es: seq<Entry>, merge: Merger, bound: Bound, key: Key) {
    && Live(es, merge, key) && bound.Admits(key)
    && forall k :: Live(es, merge, k) && bound.Admits(k) ==> key <= k
  }

  ghost predicate Greatest(es: seq<Entry>, merge: Merger, bound: Bound, key: Key) {
    && Live(es, merge, key) && bound.Admits(key)
    && forall k :: Live(es, merge, k) && bound.Admits(k) ==> k <= key
  }

  ghost function Forward(es: seq<Entry>, merge: Merger, bound: Bound): Cursor {
    if exists key :: Least(es, merge, bound, key) then
      var key :| Least(es, merge, bound, key);
      At(key)
    else AfterLast
  }

  ghost function Backward(es: seq<Entry>, merge: Merger, bound: Bound): Cursor {
    if exists key :: Greatest(es, merge, bound, key) then
      var key :| Greatest(es, merge, bound, key);
      At(key)
    else BeforeFirst
  }

  datatype Op = First | Last | SeekGE(key: Key) | SeekLT(key: Key) | Next | Prev

  /** What an operation does to a cursor over the live keys. */
  ghost function Move(es: seq<Entry>, merge: Merger, c: Cursor, op: Op): Cursor {
    match op
    case First => Forward(es, merge, All)
    case Last => Backward(es, merge, All)
    case SeekGE(key) => Forward(es, merge, AtLeast(key))
    case SeekLT(key) => Backward(es, merge, LessThan(key))
    case Next => (match c
                  case BeforeFirst => Forward(es, merge, All)
                  case At(key) => Forward(es, merge, MoreThan(key))
                  case AfterLast => AfterLast)
    case Prev => (match c
                  case BeforeFirst => BeforeFirst
                  case At(key) => Backward(es, merge, LessThan(key))
                  case AfterLast => Backward(es, merge, All))
  }

  ghost function MoveAll(es: seq<Entry>, merge: Merger, c: Cursor, ops: seq<Op>): Cursor {
    if ops == [] then c else Move(es, merge, MoveAll(es, merge, c, ops[..|ops| - 1]), ops[|ops| - 1])
  }

  /** The key and value that a cursor shows. */
  ghost function Observe(es: seq<Entry>, merge: Merger, c: Cursor): Option<(Key, Value)> {
    if c.At? && Live(es, merge, c.key) then Some((c.key, Lookup(es, merge, c.key).value)) else None
  }

  // --- versions of one key -------------------------------------------------

  /** A sequence number of zero is only given to the last version of a key. */
  ghost predicate ZeroIsLast(es: seq<Entry>) {
    forall i, j :: 0 <= i < j < |es| && es[i].seqNum == 0 ==> es[i].key != es[j].key
  }

  ghost predicate Ascending(es: seq<Entry>) {
    forall i, j :: 0 <= i < j < |es| ==> es[i].key <= es[j].key
  }

  /** Between the versions of two keys. */
  ghost predicate Boundary(es: seq<Entry>, i: int) {
    0 <= i <= |es| && (0 < i < |es| ==> es[i - 1].key < es[i].key)
  }

  /** The versions from `i` to the last one of the same key. */
  ghost function VersionsFrom(es: seq<Entry>, merge: Merger, i: nat): Option<Value>
    requires i < |es|
    decreases |es| - i
  {
    Apply(merge, es[i], OlderThan(es, merge, i))
  }

  ghost function OlderThan(es: seq<Entry>, merge: Merger, i: nat): Option<Value>
    requires i < |es|
    decreases |es| - i, 0
  {
    if i + 1 < |es| && es[i + 1].key == es[i].key then VersionsFrom(es, merge, i + 1) else None
  }

  lemma {:induction false} LookupAbsent(es: seq<Entry>, merge: Merger, key: Key)
    requires forall e :: e in es ==> e.key != key
    ensures Lookup(es, merge, key) == None
  {
    if es != [] { LookupAbsent(es[1..], merge, key); }
  }

  lemma {:induction false} LookupSkip(es: seq<Entry>, merge: Merger, key: Key, i: nat)
    requires i <= |es| && forall j :: 0 <= j < i ==> es[j].key != key
    ensures Lookup(es, merge, key) == Lookup(es[i..], merge, key)
  {
    if i > 0 {
      LookupSkip(es[1..], merge, key, i - 1);
      assert es[1..][i - 1..] == es[i..];
    } else {
      assert es[0..] == es;
    }
  }

  lemma {:induction false} LookupSuffix(es: seq<Entry>, merge: Merger, i: nat)
    requires Ascending(es) && i < |es|
    ensures Lookup(es[i..], merge, es[i].key) == VersionsFrom(es, merge, i)
    decreases |es| - i
  {
    assert es[i..][1..] == es[i + 1..];
    if i + 1 < |es| && es[i + 1].key == es[i].key {
      LookupSuffix(es, merge, i + 1);
    } else {
      LookupAbsent(es[i + 1..], merge, es[i].key);
    }
  }

  /** The value of a key is the fold over its versions. */
  lemma {:induction false} LookupVersions(es: seq<Entry>, merge: Merger, i: nat)
    requires Ascending(es) && i < |es| && Boundary(es, i)
    ensures Lookup(es, merge, es[i].key) == VersionsFrom(es, merge, i)
  {
    forall j | 0 <= j < i ensures es[j].key != es[i].key {
      assert es[j].key <= es[i - 1].key;
    }
    LookupSkip(es, merge, es[i].key, i);
    LookupSuffix(es, merge, i);
  }

  lemma {:induction false} LiveHasVersion(es: seq<Entry>, merge: Merger, key: Key)
    requires Live(es, merge, key)
    ensures exists i :: 0 <= i < |es| && es[i].key == key
  {
    if forall i :: 0 <= i < |es| ==> es[i].key != key {
      LookupAbsent(es, merge, key);
    }
  }

  /** Whether a key is live does not depend on the operator. */
  lemma {:induction false} LiveAnyway(es: seq<Entry>, m1: Merger, m2: Merger, key: Key)
    ensures Live(es, m1, key) <==> Live(es, m2, key)
  {
    if es != [] { LiveAnyway(es[1..], m1, m2, key); }
  }

  /** Folding two operands one by one, or together. */
  lemma {:induction false} FoldAssociative(merge: Merger, key: Key, older: Option<Value>, a: Value, b: Value)
    requires Associative(merge)
    ensures merge(Some(key), Fold(merge, key, older, a), b) == Fold(merge, key, older, merge(Some(key), a, b))
  {
  }

  /** ValueMerger.MergeOlder called for one operand after the other, each older than the last. */
  function MergeOlder(merge: Merger, key: Option<Key>, value: Value, older: seq<Value>): Value
    decreases older
  {
    if older == [] then value else MergeOlder(merge, key, merge(key, older[0], value), older[1..])
  }

  /** ValueMerger.MergeNewer called for one operand after the other, each newer than the last. */
  function MergeNewer(merge: Merger, key: Option<Key>, value: Value, newer: seq<Value>): Value
    decreases newer
  {
    if newer == [] then value else MergeNewer(merge, key, merge(key, value, newer[0]), newer[1..])
  }

  function Reversed(s: seq<Value>): (r: seq<Value>)
    ensures |r| == |s| && forall i :: 0 <= i < |s| ==> r[i] == s[|s| - 1 - i]
  {
    seq(|s|, i requires 0 <= i < |s| => s[|s| - 1 - i])
  }

  /** A chain of operands, newest first, merges to the same value from either end. */
  lemma {:induction false} EitherDirection(merge: Merger, key: Option<Key>, chain: seq<Value>)
    requires Associative(merge) && chain != []
    ensures MergeOlder(merge, key, chain[0], chain[1..])
         == MergeNewer(merge, key, Reversed(chain)[0], Reversed(chain)[1..])
  {
    var n := |chain|;
    if n > 1 {
      var rest := chain[1..];
      EitherDirection(merge, key, rest);
      OlderAfterNewest(merge, key, chain[0], rest[0], rest[1..]);
      NewerLast(merge, key, Reversed(rest)[0], Reversed(rest)[1..], chain[0]);
      assert Reversed(chain)[0] == Reversed(rest)[0] && Reversed(chain)[1..] == Reversed(rest)[1..] + [chain[0]];
    }
  }

  /** The newest operand can be merged in first or last. */
  lemma {:induction false} OlderAfterNewest(
      merge: Merger, key: Option<Key>, newest: Value, value: Value, older: seq<Value>)
    requires Associative(merge)
    ensures MergeOlder(merge, key, merge(key, value, newest), older)
         == merge(key, MergeOlder(merge, key, value, older), newest)
    decreases older
  {
    if older != [] {
      OlderAfterNewest(merge, key, newest, merge(key, older[0], value), older[1..]);
      assert merge(key, merge(key, older[0], value), newest) == merge(key, older[0], merge(key, value, newest));
    }
  }

  lemma {:induction false} NewerLast(merge: Merger, key: Option<Key>, value: Value, newer: seq<Value>, newest: Value)
    ensures MergeNewer(merge, key, value, newer + [newest]) == merge(key, MergeNewer(merge, key, value, newer), newest)
    decreases newer
  {
    if newer != [] {
      assert (newer + [newest])[1..] == newer[1..] + [newest];
      NewerLast(merge, key, merge(key, value, newer[0]), newer[1..], newest);
    } else {
      assert newer + [newest] == [newest] && [newest][1..] == [];
    }
  }

  // --- searching -----------------------------------------------------------

  /** `bound` admits exactly the entries from `i` on. */
  ghost predicate Suffix(es: seq<Entry>, bound: Bound, i: int) {
    0 <= i <= |es| && forall j :: 0 <= j < |es| ==> (i <= j <==> bound.Admits(es[j].key))
  }

  /** `bound` admits exactly the entries before `i`. */
  ghost predicate Prefix(es: seq<Entry>, bound: Bound, i: int) {
    0 <= i <= |es| && forall j :: 0 <= j < |es| ==> (j < i <==> bound.Admits(es[j].key))
  }

  /** No live key that `bound` admits lies before the entry `i`. */
  ghost predicate NonePassed(es: seq<Entry>, merge: Merger, bound: Bound, i: int)
    ensures NonePassed(es, merge, bound, i) ==> Boundary(es, i)
  {
    && Boundary(es, i)
    && (forall j :: i <= j < |es| ==> bound.Admits(es[j].key))
    && (forall k :: Live(es, merge, k) && bound.Admits(k) ==> i < |es| && es[i].key <= k)
  }

  /** No live key that `bound` admits lies after the entry `i`. */
  ghost predicate NoneSkipped(es: seq<Entry>, merge: Merger, bound: Bound, i: int)
    ensures NoneSkipped(es, merge, bound, i) ==> -1 <= i < |es|
  {
    && -1 <= i < |es|
    && (forall j :: 0 <= j <= i ==> bound.Admits(es[j].key))
    && (forall k :: Live(es, merge, k) && bound.Admits(k) ==> 0 <= i && k <= es[i].key)
  }

  lemma {:induction false} AfterKey(es: seq<Entry>, i: int)
    requires Ascending(es) && Boundary(es, i) && 0 < i
    ensures Suffix(es, MoreThan(es[i - 1].key), i)
  {
  }

  lemma {:induction false} BeforeKey(es: seq<Entry>, i: int)
    requires Ascending(es) && Boundary(es, i) && i < |es|
    ensures Prefix(es, LessThan(es[i].key), i)
  {
  }

  lemma {:induction false} StartForward(es: seq<Entry>, merge: Merger, bound: Bound, i: int)
    requires Ascending(es) && Suffix(es, bound, i)
    ensures NonePassed(es, merge, bound, i)
  {
    forall k | Live(es, merge, k) && bound.Admits(k) ensures i < |es| && es[i].key <= k {
      LiveHasVersion(es, merge, k);
    }
  }

  lemma {:induction false} StartBackward(es: seq<Entry>, merge: Merger, bound: Bound, i: int)
    requires Ascending(es) && Prefix(es, bound, i + 1)
    ensures NoneSkipped(es, merge, bound, i) && Boundary(es, i + 1)
  {
    forall k | Live(es, merge, k) && bound.Admits(k) ensures 0 <= i && k <= es[i].key {
      LiveHasVersion(es, merge, k);
    }
  }

  /** A dead key is passed over. */
  lemma {:induction false} PassDead(es: seq<Entry>, merge: Merger, bound: Bound, i: int, next: int)
    requires Ascending(es) && NonePassed(es, merge, bound, i) && i < next <= |es|
    requires es[next - 1].key == es[i].key && Boundary(es, next) && !Live(es, merge, es[i].key)
    ensures NonePassed(es, merge, bound, next)
  {
    forall k | Live(es, merge, k) && bound.Admits(k) ensures next < |es| && es[next].key <= k {
      LiveHasVersion(es, merge, k);
    }
  }

  /** Stepping back from one version to the next, or from a dead key to the key before. */
  lemma {:induction false} StepBack(es: seq<Entry>, merge: Merger, bound: Bound, i: int)
    requires Ascending(es) && 0 <= i < |es| && NoneSkipped(es, merge, bound, i)
    requires i == 0 || es[i - 1].key != es[i].key ==> VersionsFrom(es, merge, i) == None
    ensures NoneSkipped(es, merge, bound, i - 1)
  {
    if i == 0 || es[i - 1].key != es[i].key { LookupVersions(es, merge, i); }
    forall k | Live(es, merge, k) && bound.Admits(k) ensures 0 <= i - 1 && k <= es[i - 1].key {
      LiveHasVersion(es, merge, k);
    }
  }

  lemma {:induction false} FoundForward(es: seq<Entry>, merge: Merger, bound: Bound, i: int)
    requires Ascending(es) && i < |es| && NonePassed(es, merge, bound, i) && Live(es, merge, es[i].key)
    ensures Forward(es, merge, bound) == At(es[i].key)
  {
    assert Least(es, merge, bound, es[i].key);
  }

  lemma {:induction false} NotFoundForward(es: seq<Entry>, merge: Merger, bound: Bound)
    requires NonePassed(es, merge, bound, |es|)
    ensures Forward(es, merge, bound) == AfterLast
  {
  }

  lemma {:induction false} NotFoundBackward(es: seq<Entry>, merge: Merger, bound: Bound)
    requires NoneSkipped(es, merge, bound, -1)
    ensures Backward(es, merge, bound) == BeforeFirst
  {
  }

  lemma {:induction false} FoundBackward(es: seq<Entry>, merge: Merger, bound: Bound, i: int)
    requires Ascending(es) && 0 <= i && NoneSkipped(es, merge, bound, i)
    requires Boundary(es, i) && VersionsFrom(es, merge, i).Some?
    ensures Backward(es, merge, bound) == At(es[i].key)
    ensures Lookup(es, merge, es[i].key) == VersionsFrom(es, merge, i)
  {
    LookupVersions(es, merge, i);
    assert Greatest(es, merge, bound, es[i].key);
  }

  // --- the key that the operator is handed ---------------------------------------

  /** The entry before the versions of `key`, if the search that found them came past it. */
  ghost predicate PassedLast(es: seq<Entry>, bound: Bound, key: Key, j: int) {
    0 <= j < |es| && es[j].key < key && bound.Admits(es[j].key) && (j + 1 < |es| ==> key <= es[j + 1].key)
  }

  /** iterator.go:150: the key that a forward search hands the operator when it finds `key` to start with
      a Merge. It is the one that was saved last, not the one found. */
  ghost function Handed(es: seq<Entry>, bound: Bound, key: Key, saved: Option<Key>): Option<Key> {
    if exists j :: PassedLast(es, bound, key, j) then
      var j :| PassedLast(es, bound, key, j);
      Some(es[j].key)
    else saved
  }

  /** The key that a forward search leaves saved. */
  ghost function SavedForward(es: seq<Entry>, bound: Bound, c: Cursor, saved: Option<Key>): Option<Key> {
    if c.At? then Some(c.key)
    else if es != [] && bound.Admits(es[|es| - 1].key) then Some(es[|es| - 1].key)
    else saved
  }

  /** The user key of the first Set or Merge from `i` on that `bound` admits. */
  ghost function FirstWritten(es: seq<Entry>, bound: Bound, i: nat, saved: Option<Key>): Option<Key>
    decreases |es| - i
  {
    if i >= |es| || !bound.Admits(es[i].key) then saved
    else if es[i].kind == Set || es[i].kind == InternalKeys.Kind.Merge then Some(es[i].key)
    else FirstWritten(es, bound, i + 1, saved)
  }

  /** What an iterator shows and, besides, the key it has saved. */
  datatype Reader = Reader(cursor: Cursor, saved: Option<Key>, shown: Option<(Key, Value)>)

  const Unmoved := Reader(AfterLast, None, None)

  ghost function FindNext(es: seq<Entry>, merge: Merger, saved: Option<Key>, bound: Bound): Reader {
    var c := Forward(es, merge, bound);
    var handed := if c.At? then Handed(es, bound, c.key, saved) else saved;
    Reader(c, SavedForward(es, bound, c, saved), Observe(es, HandedAlways(merge, handed), c))
  }

  ghost function FindPrev(es: seq<Entry>, merge: Merger, saved: Option<Key>, bound: Bound): Reader {
    var c := Backward(es, merge, bound);
    Reader(c, if c.At? then Some(c.key) else FirstWritten(es, bound, 0, saved), Observe(es, merge, c))
  }

  /** What a call does, the saved key included. */
  ghost function Call(es: seq<Entry>, merge: Merger, r: Reader, op: Op): Reader {
    match op
    case First => FindNext(es, merge, r.saved, All)
    case Last => FindPrev(es, merge, r.saved, All)
    case SeekGE(key) => FindNext(es, merge, r.saved, AtLeast(key))
    case SeekLT(key) => FindPrev(es, merge, r.saved, LessThan(key))
    case Next => FindNext(es, merge, r.saved, NextBound(r.cursor))
    case Prev => FindPrev(es, merge, r.saved, PrevBound(r.cursor))
  }

  ghost function CallAll(es: seq<Entry>, merge: Merger, r: Reader, ops: seq<Op>): Reader {
    if ops == [] then r else Call(es, merge, CallAll(es, merge, r, ops[..|ops| - 1]), ops[|ops| - 1])
  }

  lemma {:induction false} HandedAt(es: seq<Entry>, bound: Bound, start: int, i: int, saved: Option<Key>)
    requires Ascending(es) && Suffix(es, bound, start) && start <= i < |es| && Boundary(es, i)
    ensures Handed(es, bound, es[i].key, saved) == if i == start then saved else Some(es[i - 1].key)
  {
    if i > start { assert PassedLast(es, bound, es[i].key, i - 1); }
    forall j | PassedLast(es, bound, es[i].key, j) ensures start < i && es[j].key == es[i - 1].key {
      assert j < i && j + 1 >= i;
    }
  }

  // --- the iterator --------------------------------------------------------

  datatype IterPos = CurForward | PosNext | PosPrev | CurReverse

  class Iterator {
    const iter: I.Iterator         // the wrapped internal iterator
    const merge: Merger
    const lower: Option<Key>       // the bounds, which the wrapped iterator respects
    const upper: Option<Key>
    var iterKey: Option<Entry>     // where the wrapped iterator stands
    var pos: IterPos
    var valid: bool
    var key: Option<Key>           // the user key saved last
    var value: Value
    ghost const entries: seq<Entry>
    ghost var ip: int              // the index of iterKey, which is nil at -1 and |entries|

    ghost predicate Input() {
      && Sorted(entries) && Ascending(entries) && ZeroIsLast(entries) && Associative(merge)
      && (forall i :: 0 <= i < |entries| ==> entries[i].IsPoint())
      && (forall i :: 0 <= i < |entries| ==>
            (lower.Some? ==> lower.value <= entries[i].key) && (upper.Some? ==> entries[i].key < upper.value))
    }

    /** The wrapped iterator stands at `ip`. */
    ghost predicate Linked()
      reads this, iter, iter.Repr
    {
      && Input() && this !in iter.Repr && iter.Valid() && iter.view == entries
      && -1 <= ip <= |entries| && iterKey == M.ItemAt(entries, M.Index(ip))
      && (iter.place == M.Index(ip) || (iter.place == M.Unplaced && ip == |entries|))
    }

    /** The four positions: where the wrapped iterator stands relative to the key returned. */
    ghost predicate Valid()
      reads this, iter, iter.Repr
    {
      && Linked()
      && (valid ==> key.Some?)
      && match pos
         case CurForward => if valid then 0 <= ip < |entries| && entries[ip].key == key.value else ip == |entries|
         case PosNext => valid && 0 < ip && Boundary(entries, ip) && entries[ip - 1].key == key.value
         case PosPrev => valid && ip + 1 < |entries| && Boundary(entries, ip + 1) && entries[ip + 1].key == key.value
         case CurReverse => !valid && ip == -1
    }

    ghost function Position(): Cursor
      reads this
    {
      if valid && key.Some? then At(key.value) else if pos == CurForward || pos == PosNext then AfterLast else BeforeFirst
    }

    ghost function State(): Reader
      reads this
    {
      Reader(Position(), key, if valid && key.Some? then Some((key.value, value)) else None)
    }

    constructor (iter: I.Iterator, merge: Merger, lower: Option<Key>, upper: Option<Key>)
      requires iter.Valid() && iter.place == M.Unplaced
      requires ZeroIsLast(iter.view) && Associative(merge)
      requires forall i :: 0 <= i < |iter.view| ==> iter.view[i].IsPoint()
      requires forall i :: 0 <= i < |iter.view| ==>
        (lower.Some? ==> lower.value <= iter.view[i].key) && (upper.Some? ==> iter.view[i].key < upper.value)
      ensures Valid() && State() == Unmoved
      ensures entries == iter.view && this.iter == iter
      ensures this.merge == merge && this.lower == lower && this.upper == upper
    {
      this.iter, this.merge, this.lower, this.upper := iter, merge, lower, upper;
      iterKey, pos, valid, key, value := None, CurForward, false, None, [];
      entries, ip := iter.view, |iter.view|;
      new;
      assert forall i, j :: 0 <= i < j < |entries| ==> Less(entries[i], entries[j]);
    }

    // --- the wrapped iterator ---

    method Wrapped(op: M.Op)
      requires Linked() && (op.Next? || op.Prev? ==> 0 <= ip < |entries|)
      modifies this`iterKey, this`ip, iter.Repr
      ensures Linked() && M.Index(ip) == M.Move(entries, op, M.Index(old(ip)))
    {
      hide Sorted, Ascending, ZeroIsLast, Associative, M.FirstGE, I.Iterator.Valid;
      iterKey := iter.Call(op);
      ip := iter.place.i;
    }

    // --- moving past a user key ---

    method NextUserKey()
      requires Linked() && 0 <= ip
      requires valid && ip < |entries| ==> key == Some(entries[ip].key)
      modifies this`iterKey, this`ip, this`key, iter.Repr
      ensures Linked() && old(ip) <= ip <= |entries| && Boundary(entries, ip)
      ensures old(ip) < |entries| ==>
        old(ip) < ip && entries[ip - 1].key == entries[old(ip)].key && key == Some(entries[old(ip)].key)
      ensures old(ip) == |entries| ==> ip == old(ip) && key == old(key)
    {
      hide Associative, Sorted, I.Iterator.Valid;
      if iterKey == None { return; }
      var done := iterKey.value.seqNum == 0;
      if !valid { key := Some(iterKey.value.key); }
      while true
        invariant Linked() && old(ip) <= ip < |entries|
        invariant entries[ip].key == entries[old(ip)].key && key == Some(entries[ip].key)
        invariant done == (entries[ip].seqNum == 0)
        decreases |entries| - ip
      {
        Wrapped(M.Next);
        if done || iterKey == None || key.value != iterKey.value.key { break; }
        done := iterKey.value.seqNum == 0;
      }
    }

    method PrevUserKey()
      requires Linked() && ip < |entries|
      requires valid && 0 <= ip ==> key == Some(entries[ip].key)
      modifies this`iterKey, this`ip, this`key, iter.Repr
      ensures Linked() && -1 <= ip <= old(ip) && Boundary(entries, ip + 1)
      ensures 0 <= old(ip) ==>
        ip < old(ip) && entries[ip + 1].key == entries[old(ip)].key && key == Some(entries[old(ip)].key)
      ensures old(ip) == -1 ==> ip == old(ip) && key == old(key)
    {
      hide Associative, Sorted, ZeroIsLast, I.Iterator.Valid;
      if iterKey == None { return; }
      if !valid { key := Some(iterKey.value.key); }
      while true
        invariant Linked() && 0 <= ip <= old(ip)
        invariant entries[ip].key == entries[old(ip)].key && key == Some(entries[ip].key)
        decreases ip
      {
        Wrapped(M.Prev);
        if iterKey == None || key.value != iterKey.value.key { break; }
      }
    }

    // --- forward ---

    /** A key whose newest version deletes it is passed over. */
    method SkipDeleted(ghost bound: Bound)
      requires Linked() && NonePassed(entries, merge, bound, ip) && ip < |entries| && !valid
      requires entries[ip].kind == Delete || entries[ip].kind == SingleDelete
      modifies this`iterKey, this`ip, this`key, iter.Repr
      ensures Linked() && ip > old(ip) && NonePassed(entries, merge, bound, ip) && key == Some(entries[ip - 1].key)
    {
      hide NonePassed, Lookup, Sorted, Associative, ZeroIsLast, I.Iterator.Valid;
      LookupVersions(entries, merge, ip);
      NextUserKey();
      PassDead(entries, merge, bound, old(ip), ip);
    }

    method FindNextEntry(ghost bound: Bound)
      requires Linked() && Suffix(entries, bound, ip)
      modifies this, iter.Repr
      ensures Valid() && State() == FindNext(entries, merge, old(key), bound)
    {
      hide NonePassed, FindNext, Suffix, Sorted, Associative, ZeroIsLast, HandedAlways, I.Iterator.Valid;
      ghost var start := ip;
      valid := false;
      pos := CurForward;
      StartForward(entries, merge, bound, ip);
      while iterKey.Some?
        invariant Linked() && start <= ip && NonePassed(entries, merge, bound, ip) && !valid && pos == CurForward
        invariant key == if ip == start then old(key) else Some(entries[ip - 1].key)
        decreases |entries| - ip
      {
        ghost var i := ip;
        var e := iterKey.value;
        match e.kind {
          case Delete =>
            SkipDeleted(bound);
          case SingleDelete =>
            SkipDeleted(bound);
          case Set =>
            key, value, valid := Some(e.key), e.value, true;
            ShownForward(entries, merge, old(key), bound, start, i, value);
            return;
          case Merge =>
            MergeNext();
            ShownForward(entries, merge, old(key), bound, start, i, value);
            return;
        }
      }
      ShownNothing(entries, merge, old(key), bound, start);
    }

    /** Folds the Merge chain at `ip`, newest operand first, for the key saved before. */
    method MergeNext()
      requires Linked() && 0 <= ip < |entries| && entries[ip].kind == InternalKeys.Kind.Merge && pos == CurForward
      requires Boundary(entries, ip)
      modifies this, iter.Repr
      ensures Linked() && valid && key == Some(entries[old(ip)].key)
      ensures VersionsFrom(entries, HandedAlways(merge, old(key)), old(ip)) == Some(value)
      ensures || (pos == CurForward && 0 <= ip < |entries| && entries[ip].key == key.value)
              || (pos == PosNext && 0 < ip && Boundary(entries, ip) && entries[ip - 1].key == key.value)
    {
      hide Sorted, Associative, Lookup, ZeroIsLast, I.Iterator.Valid;
      var handed := key;
      ghost var op := HandedAlways(merge, handed);
      HandedAssociative(merge, handed);
      key, value, valid := Some(iterKey.value.key), iterKey.value.value, true;
      while true
        invariant Linked() && old(ip) <= ip < |entries| && key == Some(entries[old(ip)].key) == Some(entries[ip].key)
        invariant valid
        invariant pos == CurForward
        invariant VersionsFrom(entries, op, old(ip)) == Some(Fold(op, key.value, OlderThan(entries, op, ip), value))
        decreases |entries| - ip
      {
        Wrapped(M.Next);
        if iterKey == None || iterKey.value.key != key.value {
          pos := PosNext;
          return;
        }
        var e := iterKey.value;
        match e.kind {
          case Delete => return;
          case SingleDelete => return;
          case Set =>
            value := merge(handed, e.value, value);
            return;
          case Merge =>
            FoldAssociative(op, key.value, OlderThan(entries, op, ip), e.value, value);
            value := merge(handed, e.value, value);
        }
      }
    }

    // --- backward ---

    /** What the versions seen so far add up to. */
    function Held(valueMerger: Option<Value>): Option<Value>
      reads this
    {
      if !valid then None else Some(if valueMerger.Some? then valueMerger.value else value)
    }

    /** Puts the next newer version on top of the older ones of its key. */
    method Accumulate(valueMerger: Option<Value>) returns (merger: Option<Value>)
      requires Linked() && 0 <= ip < |entries| && (valid ==> key == Some(entries[ip].key))
      requires OlderThan(entries, merge, ip) == Held(valueMerger) && (!valid ==> valueMerger == None)
      modifies this`key, this`value, this`valid
      ensures VersionsFrom(entries, merge, ip) == Held(merger) && (!valid ==> merger == None)
      ensures valid ==> key == Some(entries[ip].key)
      ensures key == if entries[ip].kind == Set || entries[ip].kind == InternalKeys.Kind.Merge
                     then Some(entries[ip].key) else old(key)
    {
      hide Sorted, Ascending, ZeroIsLast, Associative, I.Iterator.Valid;
      var e := iterKey.value;
      merger := valueMerger;
      match e.kind {
        case Delete =>
          value, valid, merger := [], false, None;
        case SingleDelete =>
          value, valid, merger := [], false, None;
        case Set =>
          key, value, valid, merger := Some(e.key), e.value, true, None;
        case Merge =>
          if !valid {
            key, valid, merger := Some(e.key), true, Some(e.value);
          } else if merger == None {
            merger := Some(merge(key, value, e.value));
          } else {
            merger := Some(merge(key, merger.value, e.value));
          }
      }
    }

    /** Standing at `ip` on the way back from `start`, with the versions from `ip` + 1 on seen. */
    ghost predicate GoingBack(bound: Bound, start: int, saved: Option<Key>, valueMerger: Option<Value>)
      reads this, iter, iter.Repr
    {
      && Linked() && ip <= start < |entries| && pos == CurReverse && (!valid ==> valueMerger == None)
      && key == FirstWritten(entries, bound, ip + 1, saved)
      && if ip == start then
           !valid && NoneSkipped(entries, merge, bound, ip) && Boundary(entries, ip + 1)
         else
           && NoneSkipped(entries, merge, bound, ip + 1) && (valid ==> key == Some(entries[ip + 1].key))
           && VersionsFrom(entries, merge, ip + 1) == Held(valueMerger)
    }

    method PassVersion(ghost bound: Bound, ghost start: int, ghost saved: Option<Key>, valueMerger: Option<Value>)
      returns (merger: Option<Value>)
      requires GoingBack(bound, start, saved, valueMerger) && 0 <= ip && (valid ==> key == Some(entries[ip].key))
      modifies this, iter.Repr
      ensures GoingBack(bound, start, saved, merger) && ip == old(ip) - 1
    {
      hide NoneSkipped, Sorted, Associative, ZeroIsLast, FirstWritten, I.Iterator.Valid;
      if ip < start { StepBack(entries, merge, bound, ip + 1); }
      WrittenAt(entries, merge, bound, ip, saved);
      merger := Accumulate(valueMerger);
      Wrapped(M.Prev);
    }

    method FindPrevEntry(ghost bound: Bound)
      requires Linked() && Prefix(entries, bound, ip + 1)
      modifies this, iter.Repr
      ensures Valid() && State() == FindPrev(entries, merge, old(key), bound)
    {
      hide NoneSkipped, FindPrev, Prefix, Sorted, Associative, ZeroIsLast, FirstWritten, I.Iterator.Valid;
      valid := false;
      pos := CurReverse;
      var valueMerger: Option<Value> := None;
      StartBackward(entries, merge, bound, ip);
      NoneWritten(entries, bound, ip + 1, key);
      while iterKey.Some?
        invariant GoingBack(bound, old(ip), old(key), valueMerger)
        decreases ip
      {
        if valid && iterKey.value.key != key.value {
          break;
        }
        valueMerger := PassVersion(bound, old(ip), old(key), valueMerger);
      }
      FinishBackward(bound, old(ip), old(key), valueMerger);
    }

    /** What is left to do when the versions of the key found have all been seen. */
    method FinishBackward(ghost bound: Bound, ghost start: int, ghost saved: Option<Key>, valueMerger: Option<Value>)
      requires GoingBack(bound, start, saved, valueMerger)
      requires iterKey.Some? ==> valid && iterKey.value.key != key.value
      requires ip == -1 || iterKey.Some?
      modifies this`pos, this`value
      ensures Valid() && State() == FindPrev(entries, merge, saved, bound)
    {
      hide NoneSkipped, FindPrev, Sorted, Associative, ZeroIsLast, FirstWritten, I.Iterator.Valid;
      if valid {
        pos := PosPrev;
        if valueMerger.Some? { value := valueMerger.value; }
        ShownBackward(entries, merge, saved, bound, ip + 1, value);
      } else {
        if ip < start { StepBack(entries, merge, bound, ip + 1); }
        ShownNoneBackward(entries, merge, saved, bound);
      }
    }

    // --- positioning ---

    /** The wrapped iterator on its first entry: First, or SeekGE at the lower bound. */
    method WrappedFirst()
      requires Linked()
      modifies this`iterKey, this`ip, iter.Repr
      ensures Linked() && ip == 0
    {
      hide Sorted, Associative, ZeroIsLast, I.Iterator.Valid;
      if lower.Some? {
        Wrapped(M.SeekGE(lower.value));
        assert |entries| > 0 ==> entries[0].key >= lower.value;
      } else {
        Wrapped(M.First);
      }
    }

    /** The wrapped iterator on its last entry: Last, or SeekLT at the upper bound. */
    method WrappedLast()
      requires Linked()
      modifies this`iterKey, this`ip, iter.Repr
      ensures Linked() && ip == |entries| - 1
    {
      hide Sorted, Associative, ZeroIsLast, I.Iterator.Valid;
      if upper.Some? {
        Wrapped(M.SeekLT(upper.value));
        assert |entries| > 0 ==> entries[|entries| - 1].key < upper.value;
      } else {
        Wrapped(M.Last);
      }
    }

    method SeekGE(k: Key)
      requires Valid()
      modifies this, iter.Repr
      ensures Valid() && State() == Call(entries, merge, old(State()), Op.SeekGE(k))
    {
      hide FindNext, Sorted, Associative, ZeroIsLast, I.Iterator.Valid;
      var target := k;
      if lower.Some? && k < lower.value { target := lower.value; }
      else if upper.Some? && k > upper.value { target := upper.value; }
      Wrapped(M.SeekGE(target));
      FindNextEntry(AtLeast(k));
    }

    method SeekLT(k: Key)
      requires Valid()
      modifies this, iter.Repr
      ensures Valid() && State() == Call(entries, merge, old(State()), Op.SeekLT(k))
    {
      hide FindPrev, Sorted, Associative, ZeroIsLast, I.Iterator.Valid;
      var target := k;
      if upper.Some? && k > upper.value { target := upper.value; }
      else if lower.Some? && k < lower.value { target := lower.value; }
      Wrapped(M.SeekLT(target));
      FindPrevEntry(LessThan(k));
    }

    method First()
      requires Valid()
      modifies this, iter.Repr
      ensures Valid() && State() == Call(entries, merge, old(State()), Op.First)
    {
      hide FindNext, Sorted, Associative, ZeroIsLast, I.Iterator.Valid;
      WrappedFirst();
      FindNextEntry(All);
    }

    method Last()
      requires Valid()
      modifies this, iter.Repr
      ensures Valid() && State() == Call(entries, merge, old(State()), Op.Last)
    {
      hide FindPrev, Sorted, Associative, ZeroIsLast, I.Iterator.Valid;
      WrappedLast();
      FindPrevEntry(All);
    }

    /** What Next does before it looks for an entry. */
    method StepForward()
      requires Valid()
      modifies this, iter.Repr
      ensures Linked() && Suffix(entries, NextBound(old(Position())), ip) && key == old(key)
    {
      hide Sorted, Associative, ZeroIsLast, I.Iterator.Valid;
      match pos {
        case CurForward =>
          NextUserKey();
          if valid { AfterKey(entries, ip); }
        case CurReverse =>
          // "switching from reverse to forward but iter is not at prev" cannot happen
          if iterKey.Some? { assert false; }
          WrappedFirst();
        case PosPrev =>
          valid := false;
          if iterKey == None { WrappedFirst(); } else { NextUserKey(); }
          NextUserKey();
          AfterKey(entries, ip);
        case PosNext =>
          AfterKey(entries, ip);
      }
    }

    method Next()
      requires Valid()
      modifies this, iter.Repr
      ensures Valid() && State() == Call(entries, merge, old(State()), Op.Next)
    {
      hide FindNext, Suffix, I.Iterator.Valid;
      ghost var bound := NextBound(Position());
      StepForward();
      FindNextEntry(bound);
    }

    /** What Prev does before it looks for an entry. */
    method StepBackward()
      requires Valid()
      modifies this, iter.Repr
      ensures Linked() && Prefix(entries, PrevBound(old(Position())), ip + 1) && key == old(key)
    {
      hide Sorted, Associative, ZeroIsLast, I.Iterator.Valid;
      if pos == CurReverse {
        PrevUserKey();
      }
      if pos == PosPrev {
        BeforeKey(entries, ip + 1);
      }
      if pos == CurForward || pos == PosNext {
        var stepAgain := pos == PosNext;
        ghost var wasValid := valid;
        valid := false;
        if iterKey == None { WrappedLast(); } else { PrevUserKey(); }
        if stepAgain { PrevUserKey(); }
        if wasValid { BeforeKey(entries, ip + 1); }
      }
    }

    method Prev()
      requires Valid()
      modifies this, iter.Repr
      ensures Valid() && State() == Call(entries, merge, old(State()), Op.Prev)
    {
      hide FindPrev, Prefix, I.Iterator.Valid;
      ghost var bound := PrevBound(Position());
      StepBackward();
      FindPrevEntry(bound);
    }

    /** Any run of calls shows what `CallAll` says, and leaves the key it says saved. */
    method Run(ops: seq<Op>) returns (seen: seq<Option<(Key, Value)>>)
      requires Valid()
      modifies this, iter.Repr
      ensures Valid() && State() == CallAll(entries, merge, old(State()), ops)
      ensures |seen| == |ops|
      ensures forall i :: 0 <= i < |ops| ==> seen[i] == CallAll(entries, merge, old(State()), ops[..i + 1]).shown
    {
      hide Call, I.Iterator.Valid;
      seen := [];
      for n := 0 to |ops|
        invariant Valid() && |seen| == n
        invariant State() == CallAll(entries, merge, old(State()), ops[..n])
        invariant forall i :: 0 <= i < n ==> seen[i] == CallAll(entries, merge, old(State()), ops[..i + 1]).shown
      {
        assert ops[..n + 1][..n] == ops[..n];
        match ops[n] {
          case First => First();
          case Last => Last();
          case SeekGE(k) => SeekGE(k);
          case SeekLT(k) => SeekLT(k);
          case Next => Next();
          case Prev => Prev();
        }
        seen := seen + [if valid then Some((key.value, value)) else None];
      }
      assert ops[..|ops|] == ops;
    }
  }

  lemma {:induction false} HandedAssociative(merge: Merger, key: Option<Key>)
    requires Associative(merge)
    ensures Associative(HandedAlways(merge, key))
  {
  }

  /** A forward search shows the versions that it found, folded for the key it was handed. */
  lemma {:induction false} ShownForward(
      es: seq<Entry>, merge: Merger, saved: Option<Key>, bound: Bound, start: int, i: int, value: Value)
    requires Ascending(es) && Suffix(es, bound, start) && 0 <= start <= i < |es| && NonePassed(es, merge, bound, i)
    requires var handed := if i == start then saved else Some(es[i - 1].key);
      VersionsFrom(es, HandedAlways(merge, handed), i) == Some(value)
    requires es[i].kind == Set || es[i].kind == InternalKeys.Kind.Merge
    ensures FindNext(es, merge, saved, bound) == Reader(At(es[i].key), Some(es[i].key), Some((es[i].key, value)))
  {
    hide NonePassed, Suffix, Forward, Handed, HandedAlways, Lookup;
    LookupVersions(es, merge, i);
    HandedAt(es, bound, start, i, saved);
    FoundForward(es, merge, bound, i);
    LookupVersions(es, HandedAlways(merge, Handed(es, bound, es[i].key, saved)), i);
  }

  lemma {:induction false} ShownNothing(es: seq<Entry>, merge: Merger, saved: Option<Key>, bound: Bound, start: int)
    requires Suffix(es, bound, start) && NonePassed(es, merge, bound, |es|)
    ensures FindNext(es, merge, saved, bound)
         == Reader(AfterLast, if start < |es| then Some(es[|es| - 1].key) else saved, None)
  {
    NotFoundForward(es, merge, bound);
  }

  lemma {:induction false} ShownBackward(
      es: seq<Entry>, merge: Merger, saved: Option<Key>, bound: Bound, i: int, value: Value)
    requires Ascending(es) && 0 <= i && NoneSkipped(es, merge, bound, i)
    requires Boundary(es, i) && VersionsFrom(es, merge, i) == Some(value)
    ensures FindPrev(es, merge, saved, bound) == Reader(At(es[i].key), Some(es[i].key), Some((es[i].key, value)))
  {
    FoundBackward(es, merge, bound, i);
  }

  lemma {:induction false} ShownNoneBackward(es: seq<Entry>, merge: Merger, saved: Option<Key>, bound: Bound)
    requires NoneSkipped(es, merge, bound, -1)
    ensures FindPrev(es, merge, saved, bound) == Reader(BeforeFirst, FirstWritten(es, bound, 0, saved), None)
  {
    NotFoundBackward(es, merge, bound);
  }

  lemma {:induction false} NoneWritten(es: seq<Entry>, bound: Bound, n: int, saved: Option<Key>)
    requires Prefix(es, bound, n)
    ensures FirstWritten(es, bound, n, saved) == saved
  {
  }

  lemma {:induction false} WrittenAt(es: seq<Entry>, merge: Merger, bound: Bound, i: int, saved: Option<Key>)
    requires 0 <= i < |es| && NoneSkipped(es, merge, bound, i)
    ensures FirstWritten(es, bound, i, saved)
         == if es[i].kind == Set || es[i].kind == InternalKeys.Kind.Merge then Some(es[i].key)
            else FirstWritten(es, bound, i + 1, saved)
  {
  }

  lemma {:induction false} NothingForward(es: seq<Entry>, merge: Merger)
    ensures Forward(es, merge, Nothing) == AfterLast
  {
  }

  lemma {:induction false} NothingBackward(es: seq<Entry>, merge: Merger)
    ensures Backward(es, merge, Nothing) == BeforeFirst
  {
  }

  // --- when runs show the map --------------------------------------------------

  /** What a user iterator runs over. */
  ghost predicate IsInput(es: seq<Entry>) {
    Sorted(es) && ZeroIsLast(es) && forall i :: 0 <= i < |es| ==> es[i].IsPoint()
  }

  /** After the calls `ops` the iterator shows an entry of the map from keys to values. */
  ghost predicate ShowsMap(es: seq<Entry>, merge: Merger, ops: seq<Op>) {
    CallAll(es, merge, Unmoved, ops).shown == Observe(es, merge, MoveAll(es, merge, AfterLast, ops))
  }

  /** Whatever the operator does, a run goes from key to key like a cursor over the live keys. */
  lemma {:induction false} RunMoves(es: seq<Entry>, merge: Merger, r: Reader, ops: seq<Op>)
    ensures CallAll(es, merge, r, ops).cursor == MoveAll(es, merge, r.cursor, ops)
  {
    hide Forward, Backward, Handed, FirstWritten, Observe;
    if ops != [] {
      RunMoves(es, merge, r, ops[..|ops| - 1]);
      NothingForward(es, merge);
      NothingBackward(es, merge);
    }
  }

  /** An operator that does not tell two keys apart reads the same when it is handed the wrong one of them. */
  lemma {:induction false} HandedSame(es: seq<Entry>, merge: Merger, handed: Option<Key>, key: Key)
    requires forall a, b :: merge(handed, a, b) == merge(Some(key), a, b)
    ensures Lookup(es, HandedAlways(merge, handed), key) == Lookup(es, merge, key)
  {
    if es != [] {
      HandedSame(es[1..], merge, handed, key);
      match Lookup(es[1..], merge, key) {
        case None =>
        case Some(v) => assert merge(handed, v, es[0].value) == merge(Some(key), v, es[0].value);
      }
    }
  }

  lemma {:induction false} KeyFreeShows(es: seq<Entry>, merge: Merger, ops: seq<Op>)
    requires KeyFree(merge)
    ensures ShowsMap(es, merge, ops)
  {
    hide Forward, Backward, Handed, FirstWritten, Lookup, KeyFree, HandedAlways;
    RunMoves(es, merge, Unmoved, ops);
    if ops != [] {
      forall handed, key ensures Lookup(es, HandedAlways(merge, handed), key) == Lookup(es, merge, key) {
        KeyFreeAt(merge, handed, Some(key));
        HandedSame(es, merge, handed, key);
      }
    }
  }

  lemma {:induction false} KeyFreeAt(merge: Merger, k1: Option<Key>, k2: Option<Key>)
    requires KeyFree(merge)
    ensures forall a, b :: merge(k1, a, b) == merge(k2, a, b)
  {
    forall a, b ensures merge(k1, a, b) == merge(k2, a, b) {
      assert merge(k1, a, b) == merge(None, a, b) == merge(k2, a, b);
    }
  }

  /** Two Merge versions of one key. */
  function Chain(key: Key, older: Value, newer: Value): seq<Entry> {
    [Entry(key, 2, InternalKeys.Kind.Merge, newer), Entry(key, 1, InternalKeys.Kind.Merge, older)]
  }

  lemma {:induction false} ChainAt(es: seq<Entry>, i: nat, merge: Merger, key: Key, older: Value, newer: Value)
    requires i + 2 <= |es| && es[i..i + 2] == Chain(key, older, newer) && (i + 2 < |es| ==> es[i + 2].key != key)
    ensures VersionsFrom(es, merge, i) == Some(merge(Some(key), older, newer))
  {
    assert es[i] == es[i..i + 2][0] && es[i + 1] == es[i..i + 2][1];
    assert OlderThan(es, merge, i + 1) == None;
    assert OlderThan(es, merge, i) == VersionsFrom(es, merge, i + 1);
  }

  lemma {:induction false} SearchesGE(
      es: seq<Entry>, merge: Merger, saved: Option<Key>, bound: Bound, i: nat, value: Value)
    requires Ascending(es) && i < |es| && Suffix(es, bound, i)
    requires VersionsFrom(es, HandedAlways(merge, saved), i) == Some(value)
    requires es[i].kind == Set || es[i].kind == InternalKeys.Kind.Merge
    ensures FindNext(es, merge, saved, bound) == Reader(At(es[i].key), Some(es[i].key), Some((es[i].key, value)))
  {
    StartForward(es, merge, bound, i);
    ShownForward(es, merge, saved, bound, i, i, value);
  }

  lemma {:induction false} OneCall(es: seq<Entry>, merge: Merger, op: Op)
    ensures CallAll(es, merge, Unmoved, [op]) == Call(es, merge, Unmoved, op)
    ensures MoveAll(es, merge, AfterLast, [op]) == Move(es, merge, AfterLast, op)
  {
    assert [op][..0] == [];
  }

  /** A new iterator hands the operator nil on the way forward and the right key on the way back: over two
      Merge versions of one key, First and Last show the same only if the operator does not tell them apart. */
  lemma {:induction false} FirstAndLast(merge: Merger, key: Key, older: Value, newer: Value)
    ensures var es := Chain(key, older, newer);
      && IsInput(es)
      && CallAll(es, merge, Unmoved, [First]).shown == Some((key, merge(None, older, newer)))
      && CallAll(es, merge, Unmoved, [Last]).shown == Some((key, merge(Some(key), older, newer)))
      && Observe(es, merge, MoveAll(es, merge, AfterLast, [First])) == Some((key, merge(Some(key), older, newer)))
  {
    hide Forward, Backward, Handed, Lookup, VersionsFrom, NonePassed, NoneSkipped;
    var es := Chain(key, older, newer);
    assert es[0..2] == es;
    ChainAt(es, 0, HandedAlways(merge, None), key, older, newer);
    ChainAt(es, 0, merge, key, older, newer);
    LookupVersions(es, merge, 0);
    OneCall(es, merge, First);
    OneCall(es, merge, Last);
    SearchesGE(es, merge, None, All, 0, merge(None, older, newer));
    LastOfChain(es, merge, key, older, newer);
  }

  lemma {:induction false} LastOfChain(es: seq<Entry>, merge: Merger, key: Key, older: Value, newer: Value)
    requires es == Chain(key, older, newer)
    ensures FindPrev(es, merge, None, All).shown == Some((key, merge(Some(key), older, newer)))
  {
    hide Forward, VersionsFrom, Lookup;
    assert es[0..2] == es;
    ChainAt(es, 0, merge, key, older, newer);
    StartBackward(es, merge, All, 1);
    assert NoneSkipped(es, merge, All, 0);
    ShownBackward(es, merge, None, All, 0, merge(Some(key), older, newer));
  }

  /** A Set of `k1` beside two Merge versions of `k2`. */
  function Beside(k1: Key, k2: Key, older: Value, newer: Value): seq<Entry> {
    var one := [Entry(k1, 3, Set, [])];
    if k1 < k2 then one + Chain(k2, older, newer) else Chain(k2, older, newer) + one
  }

  /** A call that leaves `k1` saved makes the next one hand `k1` to the operator at `k2`. */
  lemma {:induction false} StaleKey(merge: Merger, k1: Key, k2: Key, older: Value, newer: Value)
    requires k1 != k2
    ensures var es, ops := Beside(k1, k2, older, newer), [SeekGE(k1), SeekGE(k2)];
      && IsInput(es)
      && CallAll(es, merge, Unmoved, ops).shown == Some((k2, merge(Some(k1), older, newer)))
      && Observe(es, merge, MoveAll(es, merge, AfterLast, ops)) == Some((k2, merge(Some(k2), older, newer)))
  {
    hide Forward, Handed, Lookup, Beside, FindNext;
    var es, ops := Beside(k1, k2, older, newer), [SeekGE(k1), SeekGE(k2)];
    BesideIs(k1, k2, older, newer);
    SeekSet(merge, k1, k2, older, newer);
    SeekChain(merge, k1, k2, older, newer);
    OneCall(es, merge, SeekGE(k1));
    assert ops[..1] == [SeekGE(k1)];
    assert CallAll(es, merge, Unmoved, ops) == FindNext(es, merge, Some(k1), AtLeast(k2));
    RunMoves(es, merge, Unmoved, ops);
  }

  lemma {:induction false} BesideIs(k1: Key, k2: Key, older: Value, newer: Value)
    requires k1 != k2
    ensures var es := Beside(k1, k2, older, newer);
            var i, j := if k1 < k2 then 0 else 2, if k1 < k2 then 1 else 0;
      && IsInput(es) && Ascending(es) && |es| == 3
      && es[i] == Entry(k1, 3, Set, []) && es[j..j + 2] == Chain(k2, older, newer) && es[j].key == es[j + 1].key == k2
      && es[j].kind == InternalKeys.Kind.Merge
      && Suffix(es, AtLeast(k1), i) && Suffix(es, AtLeast(k2), j) && Boundary(es, i) && Boundary(es, j)
  {
  }

  lemma {:induction false} SeekSet(merge: Merger, k1: Key, k2: Key, older: Value, newer: Value)
    requires k1 != k2
    ensures FindNext(Beside(k1, k2, older, newer), merge, None, AtLeast(k1)) == Reader(At(k1), Some(k1), Some((k1, [])))
  {
    hide Beside, FindNext, VersionsFrom, HandedAlways, Suffix, Ascending, Boundary;
    var es, i := Beside(k1, k2, older, newer), if k1 < k2 then 0 else 2;
    BesideIs(k1, k2, older, newer);
    SetAt(es, HandedAlways(merge, None), i);
    SearchesGE(es, merge, None, AtLeast(k1), i, []);
  }

  lemma {:induction false} SeekChain(merge: Merger, k1: Key, k2: Key, older: Value, newer: Value)
    requires k1 != k2
    ensures var es := Beside(k1, k2, older, newer);
      && FindNext(es, merge, Some(k1), AtLeast(k2)) == Reader(At(k2), Some(k2), Some((k2, merge(Some(k1), older, newer))))
      && Lookup(es, merge, k2) == Some(merge(Some(k2), older, newer))
  {
    hide Beside, FindNext, VersionsFrom, Lookup, Suffix, Ascending, Boundary;
    var es, j := Beside(k1, k2, older, newer), if k1 < k2 then 1 else 0;
    BesideIs(k1, k2, older, newer);
    ChainAt(es, j, HandedAlways(merge, Some(k1)), k2, older, newer);
    SearchesGE(es, merge, Some(k1), AtLeast(k2), j, merge(Some(k1), older, newer));
    ChainAt(es, j, merge, k2, older, newer);
    LookupVersions(es, merge, j);
  }

  lemma {:induction false} SetAt(es: seq<Entry>, merge: Merger, i: nat)
    requires i < |es| && es[i].kind == Set
    ensures VersionsFrom(es, merge, i) == Some(es[i].value)
  {
  }

  /** Every run over every list of entries shows the map exactly when the operator gives the same result at every key. */
  lemma {:induction false} ShowsMapExactly(merge: Merger)
    ensures (forall es, ops :: IsInput(es) ==> ShowsMap(es, merge, ops)) <==> KeyFree(merge)
  {
    hide CallAll, MoveAll, Observe, IsInput;
    if KeyFree(merge) {
      forall es, ops | IsInput(es) ensures ShowsMap(es, merge, ops) { KeyFreeShows(es, merge, ops); }
    }
    if forall es, ops :: IsInput(es) ==> ShowsMap(es, merge, ops) {
      forall key, a, b ensures merge(key, a, b) == merge(None, a, b) {
        if key.Some? {
          FirstAndLast(merge, key.value, a, b);
          assert ShowsMap(Chain(key.value, a, b), merge, [First]);
        }
      }
    }
  }

  /** Appends the newer operand, but at the key 1 alone; elsewhere it puts it in front. */
  function AppendAtOne(key: Option<Key>, older: Value, newer: Value): Value {
    if key == Some(1.0) then older + newer else newer + older
  }

  /** An associative operator and two Merge versions of one key on which First and Last disagree. */
  lemma {:induction false} FirstAndLastDisagree()
    ensures Associative(AppendAtOne) && !KeyFree(AppendAtOne) && IsInput(Chain(1.0, [1], [2]))
    ensures CallAll(Chain(1.0, [1], [2]), AppendAtOne, Unmoved, [First]).shown == Some((1.0, [2, 1]))
    ensures CallAll(Chain(1.0, [1], [2]), AppendAtOne, Unmoved, [Last]).shown == Some((1.0, [1, 2]))
  {
    hide CallAll, MoveAll, Observe;
    forall key, a, b, c
      ensures AppendAtOne(key, AppendAtOne(key, a, b), c) == AppendAtOne(key, a, AppendAtOne(key, b, c))
    {
      assert a + b + c == a + (b + c) && c + (b + a) == c + b + a;
    }
    FirstAndLast(AppendAtOne, 1.0, [1], [2]);
    assert AppendAtOne(Some(1.0), [1], [2]) == [1, 2] && AppendAtOne(None, [1], [2]) == [2, 1];
  }
}
