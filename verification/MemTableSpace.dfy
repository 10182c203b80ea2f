/** mem_table.go: the reservation of arena space, as a state machine over prepare, which is serialized, and
    the concurrent steps of apply and writerUnref. */
module MemTableSpace {
  import opened Wrappers
  import Batches

  const MAX_HEIGHT: nat := 20
  const LINKS_SIZE: nat := 8

  /** A batch that has reserved space: what each of its records may need, and how many have been added. */
  datatype InFlight = InFlight(needs: seq<nat>, next: nat, done: bool) {
    predicate Valid() {
      next <= |needs| && (done ==> next == |needs|) && forall i :: 0 <= i < |needs| ==> needs[i] >= MAX_HEIGHT * LINKS_SIZE
    }
    function Remaining(): nat { if next <= |needs| then Sum(needs, next) else 0 }
  }

  function Sum(s: seq<nat>, from: nat): nat
    requires from <= |s|
    decreases |s| - from
  {
    if from == |s| then 0 else s[from] + Sum(s, from + 1)
  }

  datatype State = State(
    capacity: nat,
    size: nat,                  // allocated in the arena
    reserved: nat,
    writerRefs: int,
    mutable: bool,              // the memtable that batches are prepared in, referenced by the queue
    loaded: Option<int>,        // writerRefs as read by a prepare that is under way
    failed: bool,               // some allocation ran out of space
    batches: seq<InFlight>)

  function Outstanding(batches: seq<InFlight>): nat {
    if batches == [] then 0 else Outstanding(batches[..|batches| - 1]) + batches[|batches| - 1].Remaining()
  }

  function Unfinished(batches: seq<InFlight>): nat {
    if batches == [] then 0 else Unfinished(batches[..|batches| - 1]) + if batches[|batches| - 1].done then 0 else 1
  }

  datatype Action =
    | LoadRefs                                          // availBytes
    | Reserve(needs: seq<nat>, memTableSize: nat)       // the rest of availBytes and prepare
    | Add(batch: nat, height: nat)                      // one record in apply
    | Unref(batch: nat)                                 // after apply
    | Rotate                                            // the queue drops its reference

  function Init(capacity: nat, size: nat): State {
    State(capacity, size, size, 1, true, None, false, [])
  }

  /** The result of prepare: whether the batch fits. */
  function DoReserve(s: State, refs: int, needs: seq<nat>, memTableSize: nat): State {
    var reserved := if refs == 1 then s.size else s.reserved;
    var avail: int := s.capacity - reserved;
    if memTableSize > avail then s.(reserved := reserved, loaded := None)
    else
      s.(reserved := reserved + memTableSize, loaded := None, writerRefs := s.writerRefs + 1,
         batches := s.batches + [InFlight(needs, 0, false)])
  }

  /** Arena.alloc for a node of some height: the tower above it is not allocated but must fit. */
  function DoAdd(s: State, i: nat, height: nat): State
    requires i < |s.batches| && s.batches[i].next < |s.batches[i].needs| && height <= MAX_HEIGHT
    requires s.batches[i].needs[s.batches[i].next] >= MAX_HEIGHT * LINKS_SIZE
  {
    var b := s.batches[i];
    var unused := (MAX_HEIGHT - height) * LINKS_SIZE;
    var size := s.size + b.needs[b.next] - unused;
    s.(size := size, failed := s.failed || size + unused > s.capacity, batches := s.batches[i := b.(next := b.next + 1)])
  }

  /** Which steps are possible. */
  predicate Enabled(s: State, a: Action) {
    match a
    case LoadRefs => s.mutable && s.loaded == None
    case Reserve(needs, memTableSize) => s.loaded.Some? && Sum(needs, 0) <= memTableSize && InFlight(needs, 0, false).Valid()
    case Add(i, height) =>
      && i < |s.batches| && !s.batches[i].done && s.batches[i].Valid() && s.batches[i].next < |s.batches[i].needs|
      && 1 <= height <= MAX_HEIGHT
    case Unref(i) => i < |s.batches| && !s.batches[i].done && s.batches[i].next == |s.batches[i].needs|
    case Rotate => s.mutable && s.loaded == None
  }

  function Step(s: State, a: Action): State {
    if !Enabled(s, a) then s
    else match a
      case LoadRefs => s.(loaded := Some(s.writerRefs))
      case Reserve(needs, memTableSize) => DoReserve(s, s.loaded.value, needs, memTableSize)
      case Add(i, height) => DoAdd(s, i, height)
      case Unref(i) => s.(writerRefs := s.writerRefs - 1, batches := s.batches[i := s.batches[i].(done := true)])
      case Rotate => s.(mutable := false, writerRefs := s.writerRefs - 1)
  }

  ghost predicate Inv(s: State) {
    && s.size + Outstanding(s.batches) <= s.reserved <= s.capacity
    && s.writerRefs == Unfinished(s.batches) + (if s.mutable then 1 else 0)
    && (s.loaded.Some? ==> s.mutable)
    && (s.loaded == Some(1) ==> Unfinished(s.batches) == 0)
    && !s.failed
    && forall i :: 0 <= i < |s.batches| ==> s.batches[i].Valid()
  }

  lemma {:induction false} ReplaceBatch(bs: seq<InFlight>, i: nat, b: InFlight)
    requires i < |bs|
    ensures Outstanding(bs[i := b]) == Outstanding(bs) - bs[i].Remaining() + b.Remaining()
    ensures Unfinished(bs[i := b]) == Unfinished(bs) - (if bs[i].done then 0 else 1) + (if b.done then 0 else 1)
  {
    var n := |bs| - 1;
    if i < n {
      ReplaceBatch(bs[..n], i, b);
      assert bs[i := b][..n] == bs[..n][i := b];
    } else {
      assert bs[i := b][..n] == bs[..n];
    }
  }

  lemma {:induction false} AddBatch(bs: seq<InFlight>, b: InFlight)
    ensures Outstanding(bs + [b]) == Outstanding(bs) + b.Remaining()
    ensures Unfinished(bs + [b]) == Unfinished(bs) + if b.done then 0 else 1
  {
    assert (bs + [b])[..|bs|] == bs;
  }

  lemma {:induction false} NothingOutstanding(bs: seq<InFlight>)
    requires Unfinished(bs) == 0 && forall i :: 0 <= i < |bs| ==> bs[i].Valid()
    ensures Outstanding(bs) == 0 && forall i :: 0 <= i < |bs| ==> bs[i].done
  {
    if bs != [] { NothingOutstanding(bs[..|bs| - 1]); }
  }

  lemma {:induction false} BatchFits(bs: seq<InFlight>, i: nat)
    requires i < |bs|
    ensures bs[i].Remaining() <= Outstanding(bs)
  {
    if i < |bs| - 1 { BatchFits(bs[..|bs| - 1], i); }
  }

  lemma {:induction false} AddKeeps(s: State, i: nat, height: nat)
    requires Inv(s) && Enabled(s, Add(i, height))
    ensures Inv(DoAdd(s, i, height))
  {
    hide Outstanding, Unfinished;
    var b := s.batches[i];
    BatchFits(s.batches, i);
    ReplaceBatch(s.batches, i, b.(next := b.next + 1));
    assert b.Remaining() == b.needs[b.next] + b.(next := b.next + 1).Remaining();
  }

  lemma {:induction false} ReserveKeeps(s: State, needs: seq<nat>, memTableSize: nat)
    requires Inv(s) && Enabled(s, Reserve(needs, memTableSize))
    ensures Inv(DoReserve(s, s.loaded.value, needs, memTableSize))
  {
    hide Outstanding, Unfinished, Sum;
    if s.loaded == Some(1) { NothingOutstanding(s.batches); }
    AddBatch(s.batches, InFlight(needs, 0, false));
  }

  lemma {:induction false} UnrefKeeps(s: State, i: nat)
    requires Inv(s) && Enabled(s, Unref(i))
    ensures Inv(Step(s, Unref(i)))
  {
    hide Outstanding, Unfinished, Sum;
    ReplaceBatch(s.batches, i, s.batches[i].(done := true));
  }

  lemma {:induction false} StepKeeps(s: State, a: Action)
    requires Inv(s)
    ensures Inv(Step(s, a))
  {
    hide Outstanding, Unfinished, Sum, DoAdd, DoReserve, InFlight.Valid;
    if Enabled(s, a) {
      match a
      case LoadRefs =>
      case Reserve(needs, memTableSize) => ReserveKeeps(s, needs, memTableSize);
      case Add(i, height) => AddKeeps(s, i, height);
      case Unref(i) => UnrefKeeps(s, i);
      case Rotate =>
    }
  }

  function Run(capacity: nat, size: nat, run: seq<Action>): State {
    if run == [] then Init(capacity, size) else Step(Run(capacity, size, run[..|run| - 1]), run[|run| - 1])
  }

  lemma {:induction false} RunKeeps(capacity: nat, size: nat, run: seq<Action>)
    requires size <= capacity
    ensures Inv(Run(capacity, size, run))
  {
    if run != [] {
      RunKeeps(capacity, size, run[..|run| - 1]);
      StepKeeps(Run(capacity, size, run[..|run| - 1]), run[|run| - 1]);
    }
  }

  /** Over every interleaving, no batch that was prepared runs out of space, although the reservation is
      reset to the true size whenever nothing is in flight; and a memtable that is ready to be flushed
      holds all of every batch. */
  lemma {:induction false} PreparedAlwaysFits(capacity: nat, size: nat, run: seq<Action>)
    requires size <= capacity
    ensures var s := Run(capacity, size, run);
      && !s.failed && s.size <= s.reserved <= s.capacity && s.size + Outstanding(s.batches) <= s.capacity
      && s.writerRefs >= 0
      && (s.writerRefs == 0 ==> !s.mutable && forall i :: 0 <= i < |s.batches| ==> s.batches[i].next == |s.batches[i].needs|)
  {
    RunKeeps(capacity, size, run);
    var s := Run(capacity, size, run);
    if s.writerRefs == 0 { NothingOutstanding(s.batches); }
  }

  // --- what prepare refuses ------------------------------------------------------------

  /** A batch that is to be prepared: what its records may need, and its memTableSize. */
  datatype Batch = Batch(needs: seq<nat>, memTableSize: nat) {
    predicate Valid() { Sum(needs, 0) <= memTableSize && InFlight(needs, 0, false).Valid() }
  }

  /** The space that a prepare takes to be available: all that is not allocated if no batch is in flight, and
      otherwise all that is not reserved. */
  function Available(s: State): int {
    s.capacity - if Unfinished(s.batches) == 0 then s.size else s.reserved
  }

  function Steps(s: State, run: seq<Action>): State
    decreases run
  {
    if run == [] then s else Steps(Step(s, run[0]), run[1..])
  }

  /** prepare, for one batch after the other. */
  function Prepares(batches: seq<Batch>): seq<Action> {
    if batches == [] then []
    else [LoadRefs, Reserve(batches[0].needs, batches[0].memTableSize)] + Prepares(batches[1..])
  }

  /** Each batch that fits into what those before it have left. */
  function Fitting(available: int, batches: seq<Batch>): seq<InFlight> {
    if batches == [] then []
    else if batches[0].memTableSize <= available then
      [InFlight(batches[0].needs, 0, false)] + Fitting(available - batches[0].memTableSize, batches[1..])
    else Fitting(available, batches[1..])
  }

  /** A prepare that has read writerRefs accepts the batch exactly if it fits into what is not allocated, when it read
      one, and into what is not reserved, when it read more. */
  lemma {:induction false} ReservesExactly(s: State, needs: seq<nat>, memTableSize: nat)
    requires Inv(s) && Enabled(s, Reserve(needs, memTableSize))
    ensures var t, available := Step(s, Reserve(needs, memTableSize)), s.capacity - if s.loaded == Some(1) then s.size else s.reserved;
      && t.batches == s.batches + (if memTableSize <= available then [InFlight(needs, 0, false)] else [])
      && t.capacity == s.capacity && t.size == s.size && t.mutable == s.mutable && t.loaded == None
      && t.capacity - t.reserved == available - (if memTableSize <= available then memTableSize else 0)
  {
    assert s.batches + [] == s.batches;
  }

  lemma {:induction false} PrepareOne(s: State, b: Batch)
    requires Inv(s) && s.mutable && s.loaded == None && b.Valid()
    ensures var t := Steps(s, [LoadRefs, Reserve(b.needs, b.memTableSize)]);
      && Inv(t) && t.mutable && t.loaded == None
      && t.batches == s.batches + Fitting(Available(s), [b])
      && Available(t) == Available(s) - (if b.memTableSize <= Available(s) then b.memTableSize else 0)
  {
    hide Unfinished, Outstanding, DoReserve, InFlight.Valid;
    var loaded := Step(s, LoadRefs);
    StepKeeps(s, LoadRefs);
    var t := Step(loaded, Reserve(b.needs, b.memTableSize));
    StepKeeps(loaded, Reserve(b.needs, b.memTableSize));
    ReservesExactly(loaded, b.needs, b.memTableSize);
    var reserve := Reserve(b.needs, b.memTableSize);
    assert [LoadRefs, reserve][1..] == [reserve] && [reserve][1..] == [];
    assert Steps(loaded, [reserve]) == Steps(t, []) == t;
    assert Steps(s, [LoadRefs, reserve]) == t;
    assert s.batches + [] == s.batches;
    AddBatch(s.batches, InFlight(b.needs, 0, false));
    assert [b][1..] == [];
  }

  lemma {:induction false} StepsAppend(s: State, a: seq<Action>, b: seq<Action>)
    ensures Steps(s, a + b) == Steps(Steps(s, a), b)
    decreases a
  {
    if a == [] {
      assert a + b == b;
    } else {
      assert (a + b)[1..] == a[1..] + b;
      StepsAppend(Step(s, a[0]), a[1..], b);
    }
  }

  lemma {:induction false} FittingNone(available: int)
    ensures Fitting(available, []) == []
  {
  }

  lemma {:induction false} FittingFirst(available: int, batches: seq<Batch>)
    requires batches != []
    ensures var taken := if batches[0].memTableSize <= available then batches[0].memTableSize else 0;
      Fitting(available, batches) == Fitting(available, [batches[0]]) + Fitting(available - taken, batches[1..])
  {
    assert [batches[0]][1..] == [];
  }

  lemma {:induction false} PreparesKeep(s: State, batches: seq<Batch>)
    requires Inv(s) && s.mutable && s.loaded == None && forall b :: b in batches ==> b.Valid()
    ensures Steps(s, Prepares(batches)).batches == s.batches + Fitting(Available(s), batches)
    decreases |batches|
  {
    hide Inv, Batch.Valid, Fitting, Available, Step;
    FittingNone(Available(s));
    if batches != [] {
      var b := batches[0];
      var first := [LoadRefs, Reserve(b.needs, b.memTableSize)];
      PrepareOne(s, b);
      StepsAppend(s, first, Prepares(batches[1..]));
      PreparesKeep(Steps(s, first), batches[1..]);
      FittingFirst(Available(s), batches);
    }
  }

  /** In every state that a run reaches, prepare accepts, of any batches in a row, exactly those that fit: into all
      that is not allocated if no batch is in flight, although more is reserved, and into what is not reserved
      otherwise. */
  lemma {:induction false} PreparesWhatFits(capacity: nat, size: nat, run: seq<Action>, batches: seq<Batch>)
    requires size <= capacity && forall b :: b in batches ==> b.Valid()
    ensures var s := Run(capacity, size, run);
      s.mutable && s.loaded == None ==>
        Run(capacity, size, run + Prepares(batches)).batches == s.batches + Fitting(Available(s), batches)
  {
    RunKeeps(capacity, size, run);
    var s := Run(capacity, size, run);
    RunOn(capacity, size, run, Prepares(batches));
    if s.mutable && s.loaded == None { PreparesKeep(s, batches); }
  }

  lemma {:induction false} RunOn(capacity: nat, size: nat, run: seq<Action>, more: seq<Action>)
    ensures Run(capacity, size, run + more) == Steps(Run(capacity, size, run), more)
    decreases more
  {
    if more == [] {
      assert run + more == run;
    } else {
      assert (run + [more[0]])[..|run|] == run;
      assert run + [more[0]] + more[1..] == run + more;
      RunOn(capacity, size, run + [more[0]], more[1..]);
    }
  }

  // --- every memtable can be flushed ------------------------------------------------------

  /** The steps that are left until nothing refers to the memtable: those of apply and writerUnref for the batches
      in flight, and the rotation. */
  function StepsOf(b: InFlight): nat {
    if b.done || b.next > |b.needs| then 0 else |b.needs| - b.next + 1
  }

  function StepsLeft(bs: seq<InFlight>): nat {
    if bs == [] then 0 else StepsLeft(bs[..|bs| - 1]) + StepsOf(bs[|bs| - 1])
  }

  lemma {:induction false} ReplaceSteps(bs: seq<InFlight>, i: nat, b: InFlight)
    requires i < |bs|
    ensures StepsLeft(bs[i := b]) == StepsLeft(bs) - StepsOf(bs[i]) + StepsOf(b)
  {
    var n := |bs| - 1;
    if i < n {
      ReplaceSteps(bs[..n], i, b);
      assert bs[i := b][..n] == bs[..n][i := b];
    } else {
      assert bs[i := b][..n] == bs[..n];
    }
  }

  /** What is left to do before the memtable can be flushed. */
  function Undone(s: State): nat {
    StepsLeft(s.batches) + if s.mutable then 1 else 0
  }

  predicate Closes(a: Action) { a.Add? || a.Unref? || a.Rotate? }

  /** Each step of apply, writerUnref and the rotation that can be taken brings the flush one step closer. */
  lemma {:induction false} StepCloses(s: State, a: Action)
    requires Inv(s) && Enabled(s, a) && Closes(a)
    ensures Inv(Step(s, a)) && Undone(Step(s, a)) == Undone(s) - 1
  {
    hide Outstanding, Unfinished, Sum;
    StepKeeps(s, a);
    match a
    case Add(i, height) =>
      assert s.batches[i].Valid();
      ReplaceSteps(s.batches, i, s.batches[i].(next := s.batches[i].next + 1));
    case Unref(i) =>
      assert s.batches[i].Valid();
      ReplaceSteps(s.batches, i, s.batches[i].(done := true));
    case Rotate =>
  }

  lemma {:induction false} SomeUnfinished(bs: seq<InFlight>) returns (i: nat)
    requires Unfinished(bs) > 0
    ensures i < |bs| && !bs[i].done
  {
    var n := |bs| - 1;
    if bs[n].done { i := SomeUnfinished(bs[..n]); } else { i := n; }
  }

  /** While something refers to the memtable, and no prepare is under way, one of these steps can be taken. */
  lemma {:induction false} SomeStepCloses(s: State) returns (a: Action)
    requires Inv(s) && s.loaded == None && s.writerRefs > 0
    ensures Closes(a) && Enabled(s, a) && Step(s, a).loaded == None
  {
    if s.mutable {
      a := Rotate;
    } else {
      var i := SomeUnfinished(s.batches);
      assert s.batches[i].Valid();
      a := if s.batches[i].next < |s.batches[i].needs| then Add(i, 1) else Unref(i);
    }
  }

  lemma {:induction false} Drains(s: State) returns (run: seq<Action>)
    requires Inv(s) && s.loaded == None
    ensures var t := Steps(s, run);
      && t.writerRefs == 0 && !t.failed && |t.batches| == |s.batches|
      && (forall a :: a in run ==> Closes(a)) && |run| <= Undone(s)
      && forall i :: 0 <= i < |s.batches| ==> t.batches[i] == InFlight(s.batches[i].needs, |s.batches[i].needs|, true)
    decreases Undone(s)
  {
    hide Outstanding, Unfinished, Sum, Undone;
    if s.writerRefs == 0 {
      run := [];
      NoRefsAllDone(s);
    } else {
      RefsNotNegative(s);
      var a := SomeStepCloses(s);
      StepCloses(s, a);
      var rest := Drains(Step(s, a));
      run := [a] + rest;
      assert run[1..] == rest;
      StepKeepsNeeds(s, a);
    }
  }

  /** From every state reached in which no prepare is under way, some steps of apply, writerUnref and the rotation,
      no more than are left, lead to a memtable that is ready to be flushed and holds all of every batch. */
  lemma {:induction false} BecomesFlushable(capacity: nat, size: nat, run: seq<Action>) returns (more: seq<Action>)
    requires size <= capacity
    ensures var s := Run(capacity, size, run);
      s.loaded == None ==>
        var t := Run(capacity, size, run + more);
        && t.writerRefs == 0 && !t.failed && |t.batches| == |s.batches|
        && (forall a :: a in more ==> Closes(a)) && |more| <= Undone(s)
        && forall i :: 0 <= i < |s.batches| ==> t.batches[i] == InFlight(s.batches[i].needs, |s.batches[i].needs|, true)
  {
    RunKeeps(capacity, size, run);
    var s := Run(capacity, size, run);
    more := [];
    if s.loaded == None { more := Drains(s); }
    RunOn(capacity, size, run, more);
  }

  lemma {:induction false} RefsNotNegative(s: State)
    requires Inv(s)
    ensures s.writerRefs >= 0
  {
  }

  lemma {:induction false} NoRefsAllDone(s: State)
    requires Inv(s) && s.writerRefs == 0
    ensures !s.failed
    ensures forall i :: 0 <= i < |s.batches| ==>
      s.batches[i] == InFlight(s.batches[i].needs, |s.batches[i].needs|, true)
  {
    NothingOutstanding(s.batches);
  }

  lemma {:induction false} StepKeepsNeeds(s: State, a: Action)
    requires Enabled(s, a) && Closes(a)
    ensures |Step(s, a).batches| == |s.batches|
    ensures forall i :: 0 <= i < |s.batches| ==> Step(s, a).batches[i].needs == s.batches[i].needs
  {
  }

  // --- what a batch reserves ---------------------------------------------------------

  /** What the records of a batch that go into the memtable may need. */
  function Needs(rs: seq<Batches.Record>): seq<nat> {
    if rs == [] then []
    else
      var last := rs[|rs| - 1];
      Needs(rs[..|rs| - 1]) + if last.kind == Batches.LOG_DATA then [] else [Batches.Need(last)]
  }

  lemma {:induction false} SumAdd(s: seq<nat>, x: nat, from: nat)
    requires from <= |s|
    ensures Sum(s + [x], from) == Sum(s, from) + x
    decreases |s| - from
  {
    if from < |s| { SumAdd(s, x, from + 1); }
  }

  lemma {:induction false} NeedsAre(rs: seq<Batches.Record>)
    ensures Sum(Needs(rs), 0) == Batches.NeedOf(rs)
    ensures forall i :: 0 <= i < |Needs(rs)| ==> Needs(rs)[i] >= MAX_HEIGHT * LINKS_SIZE
  {
    if rs != [] {
      var front, last := rs[..|rs| - 1], rs[|rs| - 1];
      NeedsAre(front);
      if last.kind == Batches.LOG_DATA {
        assert Needs(rs) == Needs(front);
      } else {
        SumAdd(Needs(front), Batches.Need(last), 0);
      }
    }
  }

  /** The memTableSize of a batch is enough to reserve if and only if no record is so large that its size wraps around. */
  lemma {:induction false} BatchReserves(s: State, rs: seq<Batches.Record>)
    requires s.loaded.Some?
    ensures Enabled(s, Reserve(Needs(rs), Batches.SizeOf(rs))) <==> Batches.NoneWraps(rs)
  {
    hide Sum, Needs, Batches.NeedOf, Batches.SizeOf, Batches.NoneWraps;
    NeedsAre(rs);
    Batches.SizeIsNeed(rs);
  }

  // --- one record in the arena, in 32 bits -----------------------------------------------

  const WORD: nat := 0x1_0000_0000

  datatype Outcome = Added(bytes: nat) | Full | Panics

  /** Arena.getBytes: a slice of the buffer, which panics if it is out of bounds. Offset zero is nil. */
  predicate InBuffer(offset: nat, size: nat, capacity: nat) {
    0 < offset <= (offset + size) % WORD <= capacity
  }

  /** newNode and Arena.alloc, with `n` bytes allocated before. The sizes are added up in 32 bits. */
  function AddNode(n: nat, capacity: nat, keySize: nat, valueSize: nat, height: nat): Outcome
    requires 1 <= height <= MAX_HEIGHT
  {
    if keySize >= WORD || valueSize >= WORD then Panics
    else
      var unused := (MAX_HEIGHT - height) * LINKS_SIZE;
      var nodeSize := Batches.MAX_NODE_SIZE - unused;
      var padded := ((nodeSize + keySize + valueSize) % WORD + Batches.ALIGN4) % WORD;
      if n > capacity || n + padded + unused > capacity then Full
      else
        var offset := (n + Batches.ALIGN4) % WORD / 4 * 4;
        var keyOffset := (offset + nodeSize) % WORD;
        if offset == 0 || offset >= capacity then Panics
        else if !InBuffer(keyOffset, keySize, capacity) then Panics
        else if !InBuffer((keyOffset + keySize) % WORD, valueSize, capacity) then Panics
        else Added(padded)
  }

  /** A node is added when what it may need is left, and not otherwise. */
  ghost predicate AddsExactly(n: nat, capacity: nat, keySize: nat, valueSize: nat, height: nat)
    requires 1 <= height <= MAX_HEIGHT
  {
    AddNode(n, capacity, keySize, valueSize, height).Added? <==>
      n + Batches.MAX_NODE_SIZE + keySize + valueSize + Batches.ALIGN4 <= capacity
  }

  /** While the sum of the sizes does not wrap around, the arena takes what fits. */
  lemma {:induction false} AddsWhatFits(n: nat, capacity: nat, keySize: nat, valueSize: nat, height: nat)
    requires 1 <= n && capacity < WORD && 1 <= height <= MAX_HEIGHT
    requires Batches.MAX_NODE_SIZE - (MAX_HEIGHT - height) * LINKS_SIZE + keySize + valueSize + Batches.ALIGN4 < WORD
    ensures AddsExactly(n, capacity, keySize, valueSize, height)
  {
    var unused := (MAX_HEIGHT - height) * LINKS_SIZE;
    var nodeSize := Batches.MAX_NODE_SIZE - unused;
    var padded := nodeSize + keySize + valueSize + Batches.ALIGN4;
    assert ((nodeSize + keySize + valueSize) % WORD + Batches.ALIGN4) % WORD == padded;
    if n + padded + unused <= capacity { NodeInBuffer(n, capacity, keySize, valueSize, nodeSize); }
  }

  /** A node that was given all its bytes lies in the buffer. */
  lemma {:induction false} NodeInBuffer(n: nat, capacity: nat, keySize: nat, valueSize: nat, nodeSize: nat)
    requires 1 <= n && 1 <= nodeSize && capacity < WORD
    requires n + nodeSize + keySize + valueSize + Batches.ALIGN4 <= capacity
    ensures var offset := (n + Batches.ALIGN4) % WORD / 4 * 4;
      && 0 < offset < capacity && InBuffer((offset + nodeSize) % WORD, keySize, capacity)
      && InBuffer(((offset + nodeSize) % WORD + keySize) % WORD, valueSize, capacity)
  {
    var offset := (n + Batches.ALIGN4) / 4 * 4;
    assert (n + Batches.ALIGN4) % WORD == n + Batches.ALIGN4;
    assert 0 < offset <= n + Batches.ALIGN4;
    assert (offset + nodeSize) % WORD == offset + nodeSize;
    assert (offset + nodeSize + keySize) % WORD == offset + nodeSize + keySize;
    assert (offset + nodeSize + keySize + valueSize) % WORD == offset + nodeSize + keySize + valueSize;
  }

  /** A sum that wraps around makes a node too large for the buffer, even if its allocation is small. */
  lemma {:induction false} WrappedIsNotAdded(n: nat, capacity: nat, keySize: nat, valueSize: nat, height: nat)
    requires 1 <= n && capacity < WORD - 171 && 1 <= height <= MAX_HEIGHT
    requires Batches.MAX_NODE_SIZE - (MAX_HEIGHT - height) * LINKS_SIZE + keySize + valueSize + Batches.ALIGN4 >= WORD
    ensures AddsExactly(n, capacity, keySize, valueSize, height)
  {
    if keySize < WORD && valueSize < WORD {
      var nodeSize := Batches.MAX_NODE_SIZE - (MAX_HEIGHT - height) * LINKS_SIZE;
      var offset := (n + Batches.ALIGN4) % WORD / 4 * 4;
      var keyOffset := (offset + nodeSize) % WORD;
      NotPastTheEnd(offset, nodeSize, capacity);
      Unwrapped(keyOffset, keySize, capacity);
      Unwrapped((keyOffset + keySize) % WORD, valueSize, capacity);
    }
  }

  /** The key of a node that starts in the buffer does not start past the end of the address space. */
  lemma {:induction false} NotPastTheEnd(offset: nat, nodeSize: nat, capacity: nat)
    requires capacity < WORD - 171 && offset % 4 == 0 && nodeSize <= Batches.MAX_NODE_SIZE
    ensures 0 < offset < capacity && (offset + nodeSize) % WORD != 0 ==> (offset + nodeSize) % WORD == offset + nodeSize
  {
    assert offset < capacity ==> offset <= WORD - 176;
  }

  lemma {:induction false} Unwrapped(offset: nat, size: nat, capacity: nat)
    requires offset < WORD && size < WORD
    ensures InBuffer(offset, size, capacity) ==> (offset + size) % WORD == offset + size
  {
  }

  /** The arena takes what fits, and nothing else, exactly as long as it is smaller than 4 GiB less 171 bytes. In
      a larger one a record of almost 4 GiB is added when no space is left. */
  lemma {:induction false} ArenaIsExact(capacity: nat)
    requires capacity < WORD
    ensures (forall n: nat, keySize: nat, valueSize: nat, height: nat :: n >= 1 && 1 <= height <= MAX_HEIGHT ==>
               AddsExactly(n, capacity, keySize, valueSize, height))
       <==> capacity < WORD - 171
  {
    hide AddsExactly;
    if capacity < WORD - 171 {
      forall n: nat, keySize: nat, valueSize: nat, height: nat | n >= 1 && 1 <= height <= MAX_HEIGHT
        ensures AddsExactly(n, capacity, keySize, valueSize, height)
      {
        if Batches.MAX_NODE_SIZE - (MAX_HEIGHT - height) * LINKS_SIZE + keySize + valueSize + Batches.ALIGN4 < WORD {
          AddsWhatFits(n, capacity, keySize, valueSize, height);
        } else {
          WrappedIsNotAdded(n, capacity, keySize, valueSize, height);
        }
      }
    } else {
      WrapsInto(capacity);
      assert !AddsExactly(WORD - 175, capacity, 8, WORD - 187, MAX_HEIGHT);
    }
  }

  /** An empty key and a value of 187 bytes less than 4 GiB, with four bytes left or less. */
  lemma {:induction false} WrapsInto(capacity: nat)
    requires WORD - 171 <= capacity < WORD
    ensures AddNode(WORD - 175, capacity, 8, WORD - 187, MAX_HEIGHT).Added?
    ensures !AddsExactly(WORD - 175, capacity, 8, WORD - 187, MAX_HEIGHT)
  {
    assert (WORD - 175 + Batches.ALIGN4) % WORD / 4 * 4 == WORD - 172;
    assert (WORD - 172 + Batches.MAX_NODE_SIZE) % WORD == 4;
  }

  /** So a step of the state machine that adds a record fails exactly when the arena does not take it; in
      particular, every record whose size wraps around fails. */
  lemma {:induction false} StepIsArena(s: State, i: nat, height: nat, r: Batches.Record)
    requires Enabled(s, Add(i, height)) && s.batches[i].needs[s.batches[i].next] == Batches.Need(r)
    requires 1 <= s.size && s.capacity < WORD - 171
    ensures var outcome, t := AddNode(s.size, s.capacity, |r.key| + 8, |r.value|, height), Step(s, Add(i, height));
      && (t.failed <==> s.failed || !outcome.Added?)
      && (outcome.Added? ==> t.size == s.size + outcome.bytes)
    ensures Batches.Need(r) >= WORD ==> Step(s, Add(i, height)).failed
  {
    ArenaIsExact(s.capacity);
    assert AddsExactly(s.size, s.capacity, |r.key| + 8, |r.value|, height);
    if s.size + Batches.Need(r) <= s.capacity { AddAllocates(s.size, s.capacity, |r.key| + 8, |r.value|, height); }
    hide AddNode;
  }

  /** A node that fits takes up its own size and the padding, without the part of the tower that it does not use. */
  lemma {:induction false} AddAllocates(n: nat, capacity: nat, keySize: nat, valueSize: nat, height: nat)
    requires 1 <= n && capacity < WORD - 171 && 1 <= height <= MAX_HEIGHT
    requires n + Batches.MAX_NODE_SIZE + keySize + valueSize + Batches.ALIGN4 <= capacity
    ensures AddNode(n, capacity, keySize, valueSize, height)
         == Added(Batches.MAX_NODE_SIZE - (MAX_HEIGHT - height) * LINKS_SIZE + keySize + valueSize + Batches.ALIGN4)
  {
    hide InBuffer;
    AddsWhatFits(n, capacity, keySize, valueSize, height);
    var nodeSize := Batches.MAX_NODE_SIZE - (MAX_HEIGHT - height) * LINKS_SIZE;
    assert (nodeSize + keySize + valueSize) % WORD == nodeSize + keySize + valueSize;
  }
}
