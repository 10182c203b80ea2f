/** table_stats.go and compaction.go: tombstones joined into hints, and the files that a hint lets a
    delete-only compaction drop. */
module DeleteHints {
  import opened Wrappers
  import opened InternalKeys
  import opened CompactionIter
  import opened MergingIter
  import opened RangeDel

  /** A run of tombstones without gaps, and the bounds of their sequence numbers. */
  datatype Span = Span(start: Key, end: Key, smallest: nat, largest: nat) {
    predicate Contains(key: Key) { start <= key < end }
    predicate Holds(seqNum: nat) { smallest <= seqNum <= largest }
  }

  /** Each key of the span is deleted by a tombstone within its bounds. */
  ghost predicate Backed(span: Span, tombs: seq<Tombstone>) {
    forall key :: span.Contains(key) ==> BackedAt(span, tombs, key)
  }

  ghost predicate BackedAt(span: Span, tombs: seq<Tombstone>, key: Key) {
    exists t :: t in tombs && t.Contains(key) && span.Holds(t.seqNum)
  }

  /** The tombstone is part of the span. */
  predicate Includes(span: Span, t: Tombstone) {
    span.start <= t.start && t.end <= span.end && span.Holds(t.seqNum)
  }

  ghost predicate IncludedIn(spans: seq<Span>, t: Tombstone) {
    exists s :: s in spans && Includes(s, t)
  }

  function Min(a: nat, b: nat): nat { if a < b then a else b }

  function Max(a: nat, b: nat): nat { if a > b then a else b }

  /** The span with one more tombstone that starts inside it or where it ends. */
  function Extend(span: Span, t: Tombstone): Span {
    Span(span.start, if span.end < t.end then t.end else span.end, Min(span.smallest, t.seqNum), Max(span.largest, t.seqNum))
  }

  lemma {:induction false} ExtendBacked(span: Span, tombs: seq<Tombstone>, t: Tombstone)
    requires Backed(span, tombs) && span.start <= t.start <= span.end
    ensures Backed(Extend(span, t), tombs + [t])
    ensures Includes(Extend(span, t), t)
    ensures forall u :: Includes(span, u) ==> Includes(Extend(span, t), u)
  {
    var longer := Extend(span, t);
    forall key | longer.Contains(key) ensures BackedAt(longer, tombs + [t], key) {
      if span.Contains(key) {
        assert BackedAt(span, tombs, key);
        var u :| u in tombs && u.Contains(key) && span.Holds(u.seqNum);
        assert u in tombs + [t] && longer.Holds(u.seqNum);
      } else {
        assert t in tombs + [t] && t.Contains(key) && longer.Holds(t.seqNum);
      }
    }
  }

  lemma {:induction false} MoreBacked(spans: seq<Span>, tombs: seq<Tombstone>, t: Tombstone)
    requires forall s :: s in spans ==> Backed(s, tombs)
    ensures forall s :: s in spans ==> Backed(s, tombs + [t])
  {
    forall s, key | s in spans && s.Contains(key) ensures BackedAt(s, tombs + [t], key) {
      assert BackedAt(s, tombs, key);
      var u :| u in tombs && u.Contains(key) && s.Holds(u.seqNum);
      assert u in tombs + [t];
    }
  }

  /** The span starts where a tombstone does, and not at the empty key; and its bounds are sequence numbers of
      tombstones that are part of it. */
  ghost predicate StartsIn(span: Span, tombs: seq<Tombstone>, empty: Key) {
    && (exists t :: t in tombs && t.start == span.start > empty)
    && Reached(span, tombs, span.smallest) && Reached(span, tombs, span.largest)
  }

  ghost predicate Reached(span: Span, tombs: seq<Tombstone>, seqNum: nat) {
    exists t :: t in tombs && Includes(span, t) && t.seqNum == seqNum
  }

  lemma {:induction false} ReachedMore(span: Span, tombs: seq<Tombstone>, t: Tombstone, seqNum: nat)
    requires Reached(span, tombs, seqNum)
    ensures Reached(span, tombs + [t], seqNum)
  {
    var u :| u in tombs && Includes(span, u) && u.seqNum == seqNum;
    assert u in tombs + [t];
  }

  lemma {:induction false} ExtendReaches(span: Span, tombs: seq<Tombstone>, t: Tombstone, empty: Key)
    requires StartsIn(span, tombs, empty) && span.start <= t.start <= span.end
    ensures StartsIn(Extend(span, t), tombs + [t], empty)
  {
    var longer := Extend(span, t);
    var u :| u in tombs && u.start == span.start > empty;
    var a :| a in tombs && Includes(span, a) && a.seqNum == span.smallest;
    var b :| b in tombs && Includes(span, b) && b.seqNum == span.largest;
    assert u in tombs + [t] && a in tombs + [t] && b in tombs + [t] && t in tombs + [t];
    assert Includes(longer, a) && Includes(longer, b) && Includes(longer, t);
  }

  lemma {:induction false} StartsMore(spans: seq<Span>, tombs: seq<Tombstone>, t: Tombstone, empty: Key)
    requires forall s :: s in spans ==> StartsIn(s, tombs, empty)
    ensures forall s :: s in spans ==> StartsIn(s, tombs + [t], empty)
  {
    forall s | s in spans ensures StartsIn(s, tombs + [t], empty) {
      var u :| u in tombs && u.start == s.start > empty;
      assert u in tombs + [t];
      ReachedMore(s, tombs, t, s.smallest);
      ReachedMore(s, tombs, t, s.largest);
    }
  }

  /** What has been found among the tombstones looked at: the spans that are complete and the one being
      extended. A tombstone that starts at the empty key never gets into one. */
  ghost predicate Joined(tombs: seq<Tombstone>, empty: Key, spans: seq<Span>, open: Option<Span>) {
    && (forall s :: s in spans ==> Backed(s, tombs) && StartsIn(s, tombs, empty))
    && (open.Some? ==> Backed(open.value, tombs) && StartsIn(open.value, tombs, empty) && open.value.start < open.value.end)
    && (forall t :: t in tombs && t.start > empty ==> IncludedIn(spans, t) || (open.Some? && Includes(open.value, t)))
    && (forall t :: t in tombs && t.start > empty ==> open.Some?)
    && (open == None ==> spans == [])
  }

  lemma {:induction false} JoinExtend(tombs: seq<Tombstone>, empty: Key, spans: seq<Span>, open: Span, t: Tombstone)
    requires Joined(tombs, empty, spans, Some(open)) && open.start <= t.start <= open.end
    ensures Joined(tombs + [t], empty, spans, Some(Extend(open, t)))
  {
    ExtendBacked(open, tombs, t);
    MoreBacked(spans, tombs, t);
    StartsMore(spans, tombs, t, empty);
    ExtendReaches(open, tombs, t, empty);
  }

  lemma {:induction false} JoinNew(
      tombs: seq<Tombstone>, empty: Key, spans: seq<Span>, open: Option<Span>, t: Tombstone)
    requires Joined(tombs, empty, spans, open) && empty < t.start < t.end
    ensures Joined(tombs + [t], empty, if open.Some? then spans + [open.value] else spans,
                   Some(Span(t.start, t.end, t.seqNum, t.seqNum)))
  {
    var all := if open.Some? then spans + [open.value] else spans;
    var fresh' := Span(t.start, t.end, t.seqNum, t.seqNum);
    MoreBacked(all, tombs, t);
    StartsMore(all, tombs, t, empty);
    assert t in tombs + [t] && Includes(fresh', t);
    forall key | fresh'.Contains(key) ensures BackedAt(fresh', tombs + [t], key) {
      assert t in tombs + [t] && t.Contains(key);
    }
    forall u | u in tombs + [t] && u.start > empty ensures IncludedIn(all, u) || Includes(fresh', u) {
      if u in tombs && IncludedIn(spans, u) {
        var s :| s in spans && Includes(s, u);
        assert s in all;
      } else if u in tombs {
        assert open.value in all && Includes(open.value, u);
      }
    }
  }

  lemma {:induction false} JoinSkip(tombs: seq<Tombstone>, empty: Key, t: Tombstone)
    requires Joined(tombs, empty, [], None) && t.start == empty
    ensures Joined(tombs + [t], empty, [], None)
  {
  }

  lemma {:induction false} JoinNothing(empty: Key)
    ensures Joined([], empty, [], None)
  {
  }

  /** The next fragment has the range of the one before, or starts at or after its end. */
  lemma {:induction false} FragmentNext(tombs: seq<Tombstone>, i: nat)
    requires Fragmented(tombs) && i < |tombs|
    ensures tombs[i].start < tombs[i].end
    ensures i > 0 ==>
      || (tombs[i].start == tombs[i - 1].start && tombs[i].end == tombs[i - 1].end)
      || tombs[i - 1].end <= tombs[i].start
  {
  }

  lemma {:induction false} JoinDone(tombs: seq<Tombstone>, empty: Key, spans: seq<Span>, open: Option<Span>)
    requires Joined(tombs, empty, spans, open)
    ensures var all := if open.Some? then spans + [open.value] else spans;
      && (forall s :: s in all ==> Backed(s, tombs) && StartsIn(s, tombs, empty))
      && (forall t :: t in tombs ==> (IncludedIn(all, t) <==> t.start > empty))
  {
    var all := if open.Some? then spans + [open.value] else spans;
    assert forall s :: s in all ==> s.start > empty;
    forall t | t in tombs && t.start > empty ensures IncludedIn(all, t) {
      if IncludedIn(spans, t) {
        var s :| s in spans && Includes(s, t);
        assert s in all;
      } else {
        assert open.value in all;
      }
    }
  }

  /** No two spans could be joined. */
  ghost predicate Gaps(spans: seq<Span>) {
    forall i, j :: 0 <= i < j < |spans| ==> spans[i].end < spans[j].start
  }

  ghost predicate Before(spans: seq<Span>, start: Key) {
    forall s :: s in spans ==> s.start < s.end < start
  }

  lemma {:induction false} NoGaps(start: Key)
    ensures Gaps([]) && Before([], start)
  {
  }

  lemma {:induction false} GapsMore(spans: seq<Span>, span: Span, start: Key)
    requires Gaps(spans) && Before(spans, span.start) && span.start < span.end < start
    ensures Gaps(spans + [span]) && Before(spans + [span], start)
  {
  }

  /** Joins fragments into spans. The start and end of the span begin as nil, which compares equal to the
      empty key: fragments that start there are passed over. */
  method Defragment(tombs: seq<Tombstone>, empty: Key) returns (spans: seq<Span>)
    requires Fragmented(tombs) && forall t :: t in tombs ==> empty <= t.start
    ensures forall s :: s in spans ==> Backed(s, tombs) && StartsIn(s, tombs, empty)
    ensures forall t :: t in tombs ==> (IncludedIn(spans, t) <==> t.start > empty)
    ensures Gaps(spans)
  {
    hide Joined, Backed, StartsIn, IncludedIn, Fragmented, Gaps, Before;
    spans := [];
    var startUserKey, endUserKey := empty, empty;
    var smallest: nat, largest: nat := 0, 0;
    var initialized := false;
    ghost var open: Option<Span> := None;
    JoinNothing(empty);
    NoGaps(empty);
    for i := 0 to |tombs|
      invariant Joined(tombs[..i], empty, spans, open) && (initialized <==> open.Some?)
      invariant !initialized ==> startUserKey == endUserKey == empty && spans == []
      invariant initialized ==>
        open == Some(Span(startUserKey, endUserKey, smallest, largest)) && empty < startUserKey < endUserKey
      invariant initialized ==> i > 0 && endUserKey == tombs[i - 1].end && startUserKey <= tombs[i - 1].start
      invariant Gaps(spans) && (initialized ==> Before(spans, startUserKey))
    {
      var t := tombs[i];
      ghost var before := tombs[..i];
      assert tombs[..i + 1] == before + [t] && t in tombs;
      FragmentNext(tombs, i);
      if startUserKey == t.start || endUserKey == t.end {
        if initialized { JoinExtend(before, empty, spans, open.value, t); } else { JoinSkip(before, empty, t); }
        if smallest > t.seqNum { smallest := t.seqNum; }
        if largest < t.seqNum { largest := t.seqNum; }
        if initialized { open := Some(Extend(open.value, t)); }
      } else if endUserKey == t.start {
        JoinExtend(before, empty, spans, open.value, t);
        endUserKey := t.end;
        if smallest > t.seqNum { smallest := t.seqNum; }
        if largest < t.seqNum { largest := t.seqNum; }
        open := Some(Extend(open.value, t));
      } else {
        JoinNew(before, empty, spans, open, t);
        if initialized { GapsMore(spans, Span(startUserKey, endUserKey, smallest, largest), t.start); }
        if initialized { spans := spans + [Span(startUserKey, endUserKey, smallest, largest)]; }
        if !initialized { NoGaps(t.start); }
        startUserKey, endUserKey, smallest, largest, initialized := t.start, t.end, t.seqNum, t.seqNum, true;
        open := Some(Span(t.start, t.end, t.seqNum, t.seqNum));
      }
    }
    assert tombs[..|tombs|] == tombs;
    JoinDone(tombs, empty, spans, open);
    if initialized { GapsMore(spans, Span(startUserKey, endUserKey, smallest, largest), endUserKey + 1.0); }
    if initialized { spans := spans + [Span(startUserKey, endUserKey, smallest, largest)]; }
  }

  /** A tombstone that deletes a range from the empty key on, alone, gives no span, so no hint is made of it. */
  method FromEmptyKey(empty: Key, end: Key, seqNum: nat) returns (spans: seq<Span>)
    requires empty < end
    ensures spans == []
  {
    hide Backed, StartsIn, IncludedIn, Gaps;
    var tombs := [Tombstone(empty, end, seqNum)];
    spans := Defragment(tombs, empty);
    StartsAfter(spans, tombs, empty);
  }

  lemma {:induction false} StartsAfter(spans: seq<Span>, tombs: seq<Tombstone>, empty: Key)
    requires forall s :: s in spans ==> StartsIn(s, tombs, empty)
    ensures (forall t :: t in tombs ==> t.start == empty) ==> spans == []
  {
    hide Reached;
    if spans != [] { assert StartsIn(spans[0], tombs, empty); }
  }

  // --- files ---------------------------------------------------------------------

  datatype File = File(smallest: Key, largest: Key, smallestSeqNum: nat, largestSeqNum: nat) {
    predicate Holds(e: Entry) {
      smallest <= e.key <= largest && smallestSeqNum <= e.seqNum <= largestSeqNum
    }
  }

  datatype Hint = Hint(span: Span, fileSmallestSeqNum: nat)

  predicate CanDelete(h: Hint, m: File, snapshots: seq<nat>)
    requires Ascending(snapshots)
  {
    if m.largestSeqNum >= h.span.smallest || m.smallestSeqNum < h.fileSmallestSeqNum then false
    else if SnapshotIndex(h.span.largest, snapshots) != SnapshotIndex(m.smallestSeqNum, snapshots) then false
    else h.span.start <= m.smallest && m.largest < h.span.end
  }

  /** Reads that may happen after the file is gone: at an open snapshot, or at a point that sees the
      newest tombstone of the hint. */
  predicate MayRead(h: Hint, snapshots: seq<nat>, s: nat) {
    s in snapshots || h.span.largest < s
  }

  /** Whoever sees an entry of a file that a hint can delete also sees a newer tombstone that covers it. */
  lemma {:induction false} DeletedIsCovered(
      h: Hint, tombs: seq<Tombstone>, m: File, snapshots: seq<nat>, e: Entry, s: nat)
    requires Ascending(snapshots) && Backed(h.span, tombs) && CanDelete(h, m, snapshots) && m.Holds(e)
    requires MayRead(h, snapshots, s) && Visible(e.seqNum, s) && h.span.largest < SEQ_NUM_BATCH
    ensures Covered(tombs, e.key, e.seqNum, s)
  {
    assert BackedAt(h.span, tombs, e.key);
    var t :| t in tombs && t.Contains(e.key) && h.span.Holds(t.seqNum);
    if s in snapshots {
      var i :| 0 <= i < |snapshots| && snapshots[i] == s;
      var stripe := SnapshotIndex(m.smallestSeqNum, snapshots);
      assert i < stripe ==> s <= m.smallestSeqNum;
      assert i >= stripe ==> h.span.largest < s;
    }
    assert Visible(t.seqNum, s);
  }

  /** If a read at `s` may happen and sees the entry `e` of the file, the tombstones `tombs` of the hint cover it. */
  ghost predicate Hidden(h: Hint, m: File, snapshots: seq<nat>, tombs: seq<Tombstone>, e: Entry, s: nat) {
    Backed(h.span, tombs) && m.Holds(e) && MayRead(h, snapshots, s) && Visible(e.seqNum, s) ==>
      Covered(tombs, e.key, e.seqNum, s)
  }

  /** One tombstone over the span backs it. */
  lemma {:induction false} OneBacks(span: Span, seqNum: nat)
    requires span.Holds(seqNum)
    ensures Backed(span, [Tombstone(span.start, span.end, seqNum)])
  {
    var t := Tombstone(span.start, span.end, seqNum);
    forall key | span.Contains(key) ensures BackedAt(span, [t], key) {
      assert t in [t] && t.Contains(key);
    }
  }

  lemma {:induction false} IndexGrows(a: nat, b: nat, snapshots: seq<nat>)
    requires Ascending(snapshots) && a <= b
    ensures SnapshotIndex(a, snapshots) <= SnapshotIndex(b, snapshots)
  {
    var j := SnapshotIndex(b, snapshots);
    assert j < |snapshots| ==> b < snapshots[j];
  }

  /** An entry of a file that a hint cannot delete, although the file is not too old, a way to back the hint, and a
      read that sees the entry but no tombstone over it. */
  lemma {:induction false} RefusedIsNeeded(h: Hint, m: File, snapshots: seq<nat>)
    returns (tombs: seq<Tombstone>, e: Entry, s: nat)
    requires Ascending(snapshots) && !CanDelete(h, m, snapshots) && m.smallestSeqNum >= h.fileSmallestSeqNum
    requires m.smallest <= m.largest && m.smallestSeqNum <= m.largestSeqNum
    requires h.span.smallest <= h.span.largest < SEQ_NUM_BATCH
    ensures !Hidden(h, m, snapshots, tombs, e, s)
  {
    var span := h.span;
    var key := if m.smallest < span.start then m.smallest else m.largest;
    e, s := Entry(key, m.smallestSeqNum, Set, []), Max(span.largest, m.largestSeqNum) + 1;
    var seqNum := span.smallest;
    if m.largestSeqNum >= span.smallest {
      e := e.(seqNum := m.largestSeqNum);
    } else if SnapshotIndex(span.largest, snapshots) != SnapshotIndex(m.smallestSeqNum, snapshots) {
      var i, j := SnapshotIndex(m.smallestSeqNum, snapshots), SnapshotIndex(span.largest, snapshots);
      IndexGrows(m.smallestSeqNum, span.largest, snapshots);
      assert i < |snapshots| && m.smallestSeqNum < snapshots[i] <= span.largest;
      seqNum, s := span.largest, snapshots[i];
    }
    tombs := [Tombstone(span.start, span.end, seqNum)];
    OneBacks(span, seqNum);
  }

  /** A hint can delete a file exactly if the file is not older than the one the hint comes from and whatever backs
      the hint hides, from every read that may happen, whatever the file may hold. */
  lemma {:induction false} CanDeleteExactly(h: Hint, m: File, snapshots: seq<nat>)
    requires Ascending(snapshots) && m.smallest <= m.largest && m.smallestSeqNum <= m.largestSeqNum
    requires h.span.smallest <= h.span.largest < SEQ_NUM_BATCH
    ensures CanDelete(h, m, snapshots) <==>
      m.smallestSeqNum >= h.fileSmallestSeqNum && forall tombs, e, s :: Hidden(h, m, snapshots, tombs, e, s)
  {
    hide SnapshotIndex, Covered, Backed;
    if CanDelete(h, m, snapshots) {
      forall tombs, e, s ensures Hidden(h, m, snapshots, tombs, e, s) {
        if Backed(h.span, tombs) && m.Holds(e) && MayRead(h, snapshots, s) && Visible(e.seqNum, s) {
          DeletedIsCovered(h, tombs, m, snapshots, e, s);
        }
      }
    } else if m.smallestSeqNum >= h.fileSmallestSeqNum {
      var tombs, e, s := RefusedIsNeeded(h, m, snapshots);
    }
  }

  /** So dropping the file changes no read. */
  lemma {:induction false} DropKeepsReads(h: Hint, tombs: seq<Tombstone>, m: File, snapshots: seq<nat>, above: seq<Entry>,
                                          dropped: seq<Entry>, below: seq<Entry>, merge: Merger, key: Key, s: nat)
    requires Ascending(snapshots) && Backed(h.span, tombs) && CanDelete(h, m, snapshots) && MayRead(h, snapshots, s)
    requires (forall e :: e in dropped ==> m.Holds(e)) && h.span.largest < SEQ_NUM_BATCH
    ensures Read(above + dropped + below, tombs, merge, key, s, None) == Read(above + below, tombs, merge, key, s, None)
  {
    forall e | e in dropped ensures !Counts(e, tombs, key, s) {
      if Visible(e.seqNum, s) { DeletedIsCovered(h, tombs, m, snapshots, e, s); }
    }
    assert above + dropped + below == above + (dropped + below);
    ReadAppend(above, dropped + below, tombs, merge, key, s, None);
    ReadAppend(dropped, below, tombs, merge, key, s, None);
    ReadNone(dropped, tombs, merge, key, s, Read(below, tombs, merge, key, s, None));
    ReadAppend(above, below, tombs, merge, key, s, None);
  }
}
