/** Internal keys, range tombstones and the meaning of a read.

    A user key is a `real`: every countable total order embeds in the reals, and
    unlike `int` they have no successor that a proof could lean on. */
module InternalKeys {
  import opened Wrappers

  type Key = real
  type Value = seq<int>

  /** Combines an older value with a newer merge operand. The operator is told the user key it
      works for; None stands for the nil key. */
  type Merger = (Option<Key>, Value, Value) -> Value

  ghost predicate Associative(merge: Merger) {
    forall key, a, b, c :: merge(key, merge(key, a, b), c) == merge(key, a, merge(key, b, c))
  }

  /** The operator as it works when it is always handed `key`. */
  function HandedAlways(merge: Merger, key: Option<Key>): Merger {
    (_, a, b) => merge(key, a, b)
  }

  /** The same result at every key, nil included. */
  ghost predicate KeyFree(merge: Merger) {
    forall key, a, b :: merge(key, a, b) == merge(None, a, b)
  }

  datatype Kind = Delete | Set | Merge | SingleDelete | RangeDelete

  /** The byte that encodes a kind in the trailer of an internal key. */
  function Code(kind: Kind): (c: nat)
    ensures c < 256
  {
    match kind
    case Delete => 0
    case Set => 1
    case Merge => 2
    case SingleDelete => 7
    case RangeDelete => 15
  }

  datatype Entry = Entry(key: Key, seqNum: nat, kind: Kind, value: Value) {
    function Trailer(): nat { seqNum * 256 + Code(kind) }
    predicate IsPoint() { kind != RangeDelete }
  }

  /** User key ascending, then trailer descending. */
  predicate Less(a: Entry, b: Entry)
    ensures Less(a, b) && a.key == b.key ==> b.seqNum <= a.seqNum
  {
    a.key < b.key || (a.key == b.key && a.Trailer() > b.Trailer())
  }

  /** A strict order in which only entries with the same key, sequence number and kind are not told apart. */
  lemma {:induction false} LessIsOrder(a: Entry, b: Entry, c: Entry)
    ensures Less(a, b) && Less(b, c) ==> Less(a, c)
    ensures !Less(a, b) && !Less(b, a) <==> a.key == b.key && a.seqNum == b.seqNum && a.kind == b.kind
    ensures a.key == b.key && a.seqNum > b.seqNum ==> Less(a, b) && !Less(b, a)
  {
    assert Code(a.kind) == Code(b.kind) ==> a.kind == b.kind;
    if a.key == b.key && a.Trailer() == b.Trailer() { assert a.seqNum == b.seqNum; }
  }

  ghost predicate Sorted(es: seq<Entry>) {
    forall i, j :: 0 <= i < j < |es| ==> Less(es[i], es[j])
  }

  /** Set on the sequence numbers of an uncommitted batch, whose entries every read sees. */
  const SEQ_NUM_BATCH: nat := 0x80_0000_0000_0000

  const SEQ_NUM_MAX: nat := 0xff_ffff_ffff_ffff

  predicate Visible(seqNum: nat, snapshot: nat) {
    seqNum < snapshot || seqNum >= SEQ_NUM_BATCH
  }

  /** Deletes the versions older than `seqNum` of every key in [start, end). */
  datatype Tombstone = Tombstone(start: Key, end: Key, seqNum: nat) {
    predicate Contains(key: Key) { start <= key < end }
  }

  /** Some tombstone seen at `snapshot` deletes the version `seqNum` of `key`. */
  predicate Covered(tombs: seq<Tombstone>, key: Key, seqNum: nat, snapshot: nat) {
    exists t :: t in tombs && t.Contains(key) && t.seqNum > seqNum && Visible(t.seqNum, snapshot)
  }

  /** A merge operand of `key` on top of what the older versions read as. */
  function Fold(merge: Merger, key: Key, older: Option<Value>, operand: Value): Value {
    match older
    case None => operand
    case Some(v) => merge(Some(key), v, operand)
  }

  /** What one version of the key being read makes of the reading of the older ones. */
  function Apply(merge: Merger, e: Entry, older: Option<Value>): Option<Value> {
    match e.kind
    case Set => Some(e.value)
    case Merge => Some(Fold(merge, e.key, older, e.value))
    case Delete => None
    case SingleDelete => None
    case RangeDelete => older
  }

  predicate Counts(e: Entry, tombs: seq<Tombstone>, key: Key, snapshot: nat) {
    e.key == key && Visible(e.seqNum, snapshot) && !Covered(tombs, key, e.seqNum, snapshot)
  }

  function ReadOne(e: Entry, tombs: seq<Tombstone>, merge: Merger, key: Key, snapshot: nat,
                   older: Option<Value>): Option<Value>
  {
    if Counts(e, tombs, key, snapshot) then Apply(merge, e, older) else older
  }

  /** The value of `key` at `snapshot`: the versions in `es`, newest first, on top of `older`. */
  ghost function Read(es: seq<Entry>, tombs: seq<Tombstone>, merge: Merger, key: Key, snapshot: nat,
                      older: Option<Value>): Option<Value>
  {
    if es == [] then older
    else ReadOne(es[0], tombs, merge, key, snapshot, Read(es[1..], tombs, merge, key, snapshot, older))
  }

  lemma {:induction false} ReadAppend(a: seq<Entry>, b: seq<Entry>, tombs: seq<Tombstone>, merge: Merger,
                                      key: Key, snapshot: nat, older: Option<Value>)
    ensures Read(a + b, tombs, merge, key, snapshot, older)
         == Read(a, tombs, merge, key, snapshot, Read(b, tombs, merge, key, snapshot, older))
  {
    if a == [] {
      assert a + b == b;
    } else {
      assert (a + b)[1..] == a[1..] + b;
      ReadAppend(a[1..], b, tombs, merge, key, snapshot, older);
    }
  }

  /** Entries that no read of `key` at `snapshot` counts do not matter. */
  lemma {:induction false} ReadNone(es: seq<Entry>, tombs: seq<Tombstone>, merge: Merger, key: Key,
                                    snapshot: nat, older: Option<Value>)
    requires forall e :: e in es ==> !Counts(e, tombs, key, snapshot)
    ensures Read(es, tombs, merge, key, snapshot, older) == older
  {
    if es != [] {
      ReadNone(es[1..], tombs, merge, key, snapshot, older);
    }
  }

  /** Two tombstone lists that count the same entries read the same. */
  lemma {:induction false} ReadSame(es: seq<Entry>, t1: seq<Tombstone>, t2: seq<Tombstone>, merge: Merger,
                                    key: Key, snapshot: nat, older: Option<Value>)
    requires forall e :: e in es && e.IsPoint() ==> (Counts(e, t1, key, snapshot) <==> Counts(e, t2, key, snapshot))
    ensures Read(es, t1, merge, key, snapshot, older) == Read(es, t2, merge, key, snapshot, older)
  {
    if es != [] {
      ReadSame(es[1..], t1, t2, merge, key, snapshot, older);
    }
  }
}
