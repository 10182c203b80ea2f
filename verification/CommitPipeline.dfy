/** commit.go: the commit pipeline as a state machine whose steps are the atomic accesses
    of the goroutines that run Commit and AllocateSeqNum. */
module CommitPipeline {
  import opened Wrappers
  import InternalKeys

  type Id = nat   // a Commit or AllocateSeqNum call together with its batch

  const SLOTS: nat := 512   // record.SyncConcurrency

  datatype Role = Commit | Allocate

  /** What a goroutine does next, with the local variables it still needs. */
  datatype Pc =
    | WantSem
    | WantLock
    | Enqueuing(enq: EnqueuePc)
    | Preparing(prep: PreparePc)
    | Unlock
    | Apply
    | MarkApplied
    | Dequeuing(deq: DequeuePc)
    | Publishing(batch: Id, pub: PublishPc)
    | Wait
    | Leave
    | Finished
    | Panic
  {
    predicate HoldsLock() { Enqueuing? || Preparing? || Unlock? }
    predicate HoldsSem() { !WantSem? && !Finished? }
    /** The batch has been handed to the queue. */
    predicate Queued() { !WantSem? && !WantLock? && !Enqueuing? && !Panic? }
    /** The batch has its sequence number. */
    predicate Sequenced() { Queued() && (Preparing? ==> prep.WriteWAL? || prep.SpinVisible?) }
    predicate Applied() { Dequeuing? || Publishing? || Wait? || Leave? || Finished? }
  }

  /** commitQueue.enqueue */
  datatype EnqueuePc = LoadHead | SpinSlot(head: nat) | StoreSlot(head: nat) | AddHead

  /** commitPipeline.prepare and AllocateSeqNum after enqueue, with mu held */
  datatype PreparePc = AddLogSeqNum | AddOneMore | SetSeqNum(v: nat) | WriteWAL | SpinVisible(v: nat)

  /** commitQueue.dequeue up to its CAS */
  datatype DequeuePc =
    | LoadHeadTail
    | LoadSlot(head: nat, tail: nat)
    | LoadApplied(head: nat, tail: nat, batch: Id)
    | CasTail(head: nat, tail: nat, batch: Id)

  /** The end of commitQueue.dequeue and the publish loop around it */
  datatype PublishPc = NilSlot(tail: nat) | CheckApplied | LoadVisible | CasVisible(cur: nat) | CommitDone

  datatype Op = Op(role: Role, count: nat, pc: Pc, index: nat, seqNum: nat, applied: bool, done: bool) {
    function End(): nat { seqNum + count }
  }

  /** The shared memory, the goroutines, and the history of the run. */
  datatype State = State(
    head: nat, tail: nat, slots: seq<Option<Id>>,
    sem: set<Id>, mu: Option<Id>,
    logSeqNum: nat, visibleSeqNum: nat,
    ops: map<Id, Op>,
    origin: nat,            // where the sequence numbers start
    queue: seq<Id>,         // every batch ever enqueued, in order
    carrier: seq<Id>,       // who dequeued each of them
    wal: seq<Id>)           // the batches written to the WAL, in order
  {
    function Goto(p: Id, pc: Pc): State
      requires p in ops
    {
      this.(ops := ops[p := ops[p].(pc := pc)])
    }
  }

  function Init(seqNum: nat): State {
    State(0, 0, seq(SLOTS, _ => None), {}, None, seqNum, seqNum, map[], seqNum, [], [], [])
  }

  /** Waiting for somebody else: the step would leave the state as it is. */
  predicate Blocked(s: State, p: Id)
    requires p in s.ops && |s.slots| == SLOTS
  {
    var op := s.ops[p];
    || (op.pc.WantSem? && |s.sem| >= SLOTS - 1)
    || (op.pc.WantLock? && s.mu.Some?)
    || (op.pc.Enqueuing? && op.pc.enq.SpinSlot? && s.slots[op.pc.enq.head % SLOTS].Some?)
    || (op.pc.Preparing? && op.pc.prep.SpinVisible? && s.visibleSeqNum != op.pc.prep.v)
    || (op.pc.Wait? && !op.done)
    || op.pc.Finished? || op.pc.Panic?
  }

  function Enqueue(s: State, p: Id, pc: EnqueuePc): State
    requires p in s.ops && |s.slots| == SLOTS
  {
    match pc
    case LoadHead => s.Goto(p, if s.tail + SLOTS == s.head then Panic else Enqueuing(SpinSlot(s.head)))
    case SpinSlot(head) => s.Goto(p, Enqueuing(StoreSlot(head)))
    case StoreSlot(head) => s.Goto(p, Enqueuing(AddHead)).(slots := s.slots[head % SLOTS := Some(p)])
    case AddHead =>
      s.(ops := s.ops[p := s.ops[p].(pc := Preparing(AddLogSeqNum), index := s.head)],
         head := s.head + 1, queue := s.queue + [p])
  }

  function Prepare(s: State, p: Id, pc: PreparePc): State
    requires p in s.ops
  {
    var op := s.ops[p];
    match pc
    case AddLogSeqNum =>
      s.Goto(p, Preparing(if op.role == Allocate && s.logSeqNum == 0 then AddOneMore else SetSeqNum(s.logSeqNum)))
       .(logSeqNum := s.logSeqNum + op.count)
    case AddOneMore => s.Goto(p, Preparing(SetSeqNum(0))).(logSeqNum := s.logSeqNum + 1)
    case SetSeqNum(v) =>
      s.(ops := s.ops[p := if op.role == Commit then op.(pc := Preparing(WriteWAL), seqNum := v)
                           else op.(pc := Preparing(SpinVisible(v)), seqNum := if v == 0 then 1 else v)])
    case WriteWAL => s.Goto(p, Unlock).(wal := s.wal + [p])
    case SpinVisible(_) => s.Goto(p, Unlock)
  }

  function Dequeue(s: State, p: Id, pc: DequeuePc): State
    requires p in s.ops && |s.slots| == SLOTS
  {
    match pc
    case LoadHeadTail => s.Goto(p, if s.tail == s.head then Wait else Dequeuing(LoadSlot(s.head, s.tail)))
    case LoadSlot(head, tail) =>
      var slot := s.slots[tail % SLOTS];
      s.Goto(p, if slot == None then Wait else Dequeuing(LoadApplied(head, tail, slot.value)))
    case LoadApplied(head, tail, b) =>
      s.Goto(p, if b in s.ops && s.ops[b].applied then Dequeuing(CasTail(head, tail, b)) else Wait)
    case CasTail(head, tail, b) =>
      if s.head == head && s.tail == tail then
        s.Goto(p, Publishing(b, NilSlot(tail))).(tail := s.tail + 1, carrier := s.carrier + [p])
      else s.Goto(p, Dequeuing(LoadHeadTail))
  }

  function Publish(s: State, p: Id, b: Id, pc: PublishPc): State
    requires p in s.ops && b in s.ops && |s.slots| == SLOTS
  {
    match pc
    case NilSlot(tail) => s.Goto(p, Publishing(b, CheckApplied)).(slots := s.slots[tail % SLOTS := None])
    case CheckApplied => s.Goto(p, if s.ops[b].applied then Publishing(b, LoadVisible) else Panic)
    case LoadVisible =>
      s.Goto(p, Publishing(b, if s.ops[b].End() <= s.visibleSeqNum then CommitDone else CasVisible(s.visibleSeqNum)))
    case CasVisible(cur) =>
      if s.visibleSeqNum == cur then s.Goto(p, Publishing(b, CommitDone)).(visibleSeqNum := s.ops[b].End())
      else s.Goto(p, Publishing(b, LoadVisible))
    case CommitDone =>
      s.(ops := s.ops[b := s.ops[b].(done := true)]).Goto(p, Dequeuing(LoadHeadTail))
  }

  /** Commit and AllocateSeqNum around the queue. */
  function Enter(s: State, p: Id, pc: Pc): State
    requires p in s.ops
  {
    match pc
    case WantSem => s.Goto(p, WantLock).(sem := s.sem + {p})
    case WantLock => s.Goto(p, Enqueuing(LoadHead)).(mu := Some(p))
    case Unlock => s.Goto(p, Apply).(mu := None)
    case Apply => s.Goto(p, MarkApplied)
    case MarkApplied => s.(ops := s.ops[p := s.ops[p].(pc := Dequeuing(LoadHeadTail), applied := true)])
    case Wait => s.Goto(p, Leave)
    case Leave => s.Goto(p, Finished).(sem := s.sem - {p})
    case _ => s
  }

  /** The next atomic step of goroutine `p`. */
  function Step(s: State, p: Id): State
    requires p in s.ops && |s.slots| == SLOTS
  {
    if Blocked(s, p) then s
    else match s.ops[p].pc
      case Enqueuing(pc) => Enqueue(s, p, pc)
      case Preparing(pc) => Prepare(s, p, pc)
      case Dequeuing(pc) => Dequeue(s, p, pc)
      case Publishing(b, pc) => if b in s.ops then Publish(s, p, b, pc) else s
      case pc => Enter(s, p, pc)
  }

  datatype Action = Start(id: Id, role: Role, count: nat) | Take(id: Id)

  /** A new call, or a step of one that is under way. */
  function Do(s: State, a: Action): State
    requires |s.slots| == SLOTS
  {
    match a
    case Start(id, role, count) =>
      if id in s.ops then s else s.(ops := s.ops[id := Op(role, count, WantSem, 0, 0, false, false)])
    case Take(id) => if id in s.ops then Step(s, id) else s
  }

  // --- the invariant -------------------------------------------------------

  /** The first sequence number of a batch that follows `start`: AllocateSeqNum does not hand out 0. */
  function First(role: Role, start: nat): nat {
    if role == Allocate && start == 0 then 1 else start
  }

  /** The sequence number that follows the first `j` batches. */
  function StartOf(s: State, j: int): nat {
    if 0 < j <= |s.queue| && s.queue[j - 1] in s.ops then s.ops[s.queue[j - 1]].End() else s.origin
  }

  /** What holds of each goroutine: what it owns, and what the values it has read still mean. */
  ghost predicate OpOk(s: State, p: Id)
    requires p in s.ops && |s.slots| == SLOTS
  {
    Owned(s, p) && PcOk(s, p)
  }

  ghost predicate Owned(s: State, p: Id)
    requires p in s.ops
  {
    var op := s.ops[p];
    && !op.pc.Panic?
    && (p in s.sem <==> op.pc.HoldsSem())
    && (op.pc.HoldsLock() ==> s.mu == Some(p))
    && (op.pc.Queued() ==> op.index < |s.queue| && s.queue[op.index] == p)
    && (op.pc.HoldsLock() && op.pc.Queued() ==> op.index == s.head - 1)
    && (op.pc.Sequenced() ==> op.seqNum == First(op.role, StartOf(s, op.index)))
    && (op.pc.HoldsLock() && op.pc.Sequenced() ==> s.logSeqNum == op.End())
    && (op.applied <==> op.pc.Applied())
    && (op.done ==> op.applied && op.index < s.tail && op.End() <= s.visibleSeqNum)
    && (op.pc.Leave? || op.pc.Finished? ==> op.done)
    && (InWAL(op) ==> p in s.wal)
  }

  predicate PcOk(s: State, p: Id)
    requires p in s.ops && |s.slots| == SLOTS
  {
    var op := s.ops[p];
    && (op.pc.Enqueuing? ==> EnqueueOk(s, p, op.pc.enq))
    && (op.pc.Preparing? ==> PrepareOk(s, op, op.pc.prep))
    && (op.pc.Dequeuing? ==> DequeueOk(s, op.pc.deq))
    && (op.pc.Publishing? ==> PublishOk(s, p, op.pc.batch, op.pc.pub))
  }

  predicate EnqueueOk(s: State, p: Id, pc: EnqueuePc)
    requires |s.slots| == SLOTS
  {
    && (pc.SpinSlot? || pc.StoreSlot? ==> pc.head == s.head)
    && (pc.StoreSlot? ==> s.slots[s.head % SLOTS] == None)
    && (pc.AddHead? ==> s.slots[s.head % SLOTS] == Some(p))
  }

  predicate PrepareOk(s: State, op: Op, pc: PreparePc) {
    && (pc.AddLogSeqNum? ==> s.logSeqNum == StartOf(s, op.index))
    && (pc.AddOneMore? ==> op.role == Allocate && StartOf(s, op.index) == 0 && s.logSeqNum == op.count)
    && (pc.SetSeqNum? ==> pc.v == StartOf(s, op.index) && s.logSeqNum == First(op.role, pc.v) + op.count)
    && (pc.WriteWAL? ==> op.role == Commit)
    && (pc.SpinVisible? ==> op.role == Allocate && pc.v == StartOf(s, op.index))
  }

  predicate DequeueOk(s: State, pc: DequeuePc) {
    && (!pc.LoadHeadTail? ==> pc.tail < pc.head <= s.head && pc.tail <= s.tail)
    && (pc.LoadApplied? && pc.tail == s.tail ==> Oldest(s, pc.batch))
    && (pc.CasTail? && pc.tail == s.tail ==> Oldest(s, pc.batch) && s.ops[pc.batch].applied)
  }

  predicate Oldest(s: State, b: Id) {
    s.tail < |s.queue| && s.queue[s.tail] == b && b in s.ops
  }

  /** `p` alone has dequeued `b`. */
  predicate PublishOk(s: State, p: Id, b: Id, pc: PublishPc)
    requires |s.slots| == SLOTS
  {
    && b in s.ops && s.ops[b].applied && !s.ops[b].done
    && s.ops[b].index < s.tail && s.ops[b].index < |s.carrier| && s.carrier[s.ops[b].index] == p
    && (pc.NilSlot? ==> pc.tail == s.ops[b].index && s.slots[pc.tail % SLOTS] == Some(b))
    && (pc.CasVisible? ==> pc.cur <= s.visibleSeqNum && pc.cur < s.ops[b].End())
    && (pc.CommitDone? ==> s.ops[b].End() <= s.visibleSeqNum)
  }

  predicate InWAL(op: Op) {
    op.role == Commit && op.pc.Sequenced() && op.pc != Preparing(WriteWAL)
  }

  /** Position `j` was dequeued by a goroutine that is still publishing it. */
  predicate Carried(s: State, j: nat) {
    && j < |s.carrier| && j < |s.queue| && s.carrier[j] in s.ops
    && var pc := s.ops[s.carrier[j]].pc;
       pc.Publishing? && pc.batch == s.queue[j]
  }

  /** The consumer that dequeued position `j` has yet to release its slot. */
  predicate NilsNext(s: State, j: nat) {
    Carried(s, j) && s.ops[s.carrier[j]].pc.pub == NilSlot(j)
  }

  /** What holds of each queue position. */
  ghost predicate PosOk(s: State, j: nat)
    requires |s.slots| == SLOTS && j < |s.queue|
  {
    && s.queue[j] in s.ops
    && var op := s.ops[s.queue[j]];
    && op.pc.Queued() && op.index == j
    && (op.pc.Sequenced() || j == s.head - 1)
    && (if j < s.tail then op.applied && (op.done || Carried(s, j)) else s.slots[j % SLOTS] == Some(s.queue[j]))
  }

  /** What holds of each slot of the ring. */
  ghost predicate SlotOk(s: State, i: nat)
    requires |s.slots| == SLOTS && i < SLOTS
  {
    s.slots[i].Some? ==>
      var b := s.slots[i].value;
      && b in s.ops
      && if s.ops[b].pc.Queued() then
           s.ops[b].index % SLOTS == i && (s.ops[b].index >= s.tail || NilsNext(s, s.ops[b].index))
         else
           s.ops[b].pc == Enqueuing(AddHead) && s.head % SLOTS == i
  }

  /** What holds of each entry of the WAL. */
  ghost predicate Logged(s: State, i: nat)
    requires i < |s.wal|
  {
    && s.wal[i] in s.ops && InWAL(s.ops[s.wal[i]])
    && (i > 0 ==> s.wal[i - 1] in s.ops && InWAL(s.ops[s.wal[i - 1]]) && s.ops[s.wal[i - 1]].index < s.ops[s.wal[i]].index)
  }

  predicate VisibleAt(s: State, k: nat) {
    k <= s.tail && s.visibleSeqNum == StartOf(s, k)
  }

  /** Will still make a dequeue attempt that finds the oldest pending batch. */
  predicate Attempts(s: State, p: Id) {
    && p in s.ops
    && var pc := s.ops[p].pc;
       || pc.Publishing?
       || (pc.Dequeuing? && (pc.deq.LoadHeadTail? || pc.deq.CasTail? || pc.deq.tail == s.tail))
  }

  predicate OldestApplied(s: State) {
    s.tail < |s.queue| && s.queue[s.tail] in s.ops && s.ops[s.queue[s.tail]].applied
  }

  ghost predicate Globals(s: State) {
    && |s.slots| == SLOTS
    && s.tail <= s.head == |s.queue| && |s.carrier| == s.tail
    && |s.sem| <= SLOTS - 1 && s.sem <= s.ops.Keys
    && (s.mu.Some? ==> s.mu.value in s.ops && s.ops[s.mu.value].pc.HoldsLock())
    && s.origin <= s.logSeqNum
    && (s.head > 0 ==> s.queue[s.head - 1] in s.ops)
    && (s.head == 0 || s.ops[s.queue[s.head - 1]].pc.Sequenced() ==> s.logSeqNum == StartOf(s, s.head))
  }

  ghost predicate Inv(s: State) {
    && Globals(s)
    && (forall p {:trigger OpOk(s, p)} :: p in s.ops ==> OpOk(s, p))
    && (forall j: nat {:trigger PosOk(s, j)} :: j < |s.queue| ==> PosOk(s, j))
    && (forall i: nat {:trigger SlotOk(s, i)} :: i < SLOTS ==> SlotOk(s, i))
    && (forall i: nat {:trigger Logged(s, i)} :: i < |s.wal| ==> Logged(s, i))
    && (exists k :: VisibleAt(s, k))
    && (OldestApplied(s) ==> exists p :: Attempts(s, p))
  }

  // --- what a step may do to the other goroutines --------------------------

  /** The effect of a step of `p` on the goroutines: the others change only by being marked done. */
  ghost predicate OpsStep(s: State, t: State, p: Id) {
    && p in s.ops && t.ops.Keys == s.ops.Keys
    && OwnStep(s.ops[p], t.ops[p])
    && (forall q {:trigger t.ops[q]} :: q in s.ops && q != p ==>
          t.ops[q] == s.ops[q] || (t.ops[q] == s.ops[q].(done := true) && PcIs(s, p, Publishing(q, CommitDone))))
    && (t.ops[p].done && !s.ops[p].done ==> PcIs(s, p, Publishing(p, CommitDone)))
    && (s.ops[p].pc.Publishing? ==>
          var b := s.ops[p].pc.batch;
          b in s.ops && (t.ops[b].done || (t.ops[p].pc.Publishing? && t.ops[p].pc.batch == b)))
  }

  predicate OwnStep(a: Op, b: Op) {
    && a.role == b.role && a.count == b.count
    && (a.pc.Queued() ==> b.pc.Queued() && b.index == a.index)
    && (a.pc.Sequenced() ==> b.pc.Sequenced() && b.seqNum == a.seqNum)
    && (a.applied ==> b.applied) && (a.done ==> b.done)
    && (InWAL(a) ==> InWAL(b))
  }

  /** The effect of a step of `p` on the shared variables. */
  ghost predicate SharedStep(s: State, t: State, p: Id) {
    && |s.slots| == SLOTS == |t.slots|
    && s.origin == t.origin
    && (t.sem == s.sem || t.sem == s.sem - {p} || (t.sem == s.sem + {p} && |s.sem| < SLOTS - 1))
    && (|| (t.mu == s.mu && (Holds(s, p) ==> Holds(t, p)))
        || (s.mu == None && t.mu == Some(p) && Holds(t, p))
        || (PcIs(s, p, Unlock) && s.mu == Some(p) && t.mu == None))
    && ((t.queue == s.queue && t.head == s.head && !PcIs(s, p, Enqueuing(AddHead))) || Appends(s, t, p))
    && ((t.tail == s.tail && t.carrier == s.carrier) || Takes(s, t, p))
    && ((t.slots == s.slots && !MustFree(s, p)) || Fills(s, t, p) || Frees(s, t, p))
    && (t.wal == s.wal || (t.wal == s.wal + [p] && PcIs(s, p, Preparing(WriteWAL)) && PcIs(t, p, Unlock)))
    && (t.visibleSeqNum == s.visibleSeqNum || (s.visibleSeqNum < t.visibleSeqNum && Ratchets(s, t, p)))
    && (t.logSeqNum == s.logSeqNum || (s.logSeqNum < t.logSeqNum && p in s.ops && s.ops[p].pc.Preparing?))
  }

  predicate Holds(s: State, p: Id) {
    p in s.ops && s.ops[p].pc.HoldsLock()
  }

  predicate PcIs(s: State, p: Id, pc: Pc) {
    p in s.ops && s.ops[p].pc == pc
  }

  predicate Appends(s: State, t: State, p: Id) {
    && t.queue == s.queue + [p] && t.head == s.head + 1
    && PcIs(s, p, Enqueuing(AddHead)) && PcIs(t, p, Preparing(AddLogSeqNum)) && t.ops[p].index == s.head
  }

  predicate Takes(s: State, t: State, p: Id) {
    && t.tail == s.tail + 1 && t.carrier == s.carrier + [p] && s.tail < |s.queue|
    && p in s.ops && s.ops[p].pc.Dequeuing?
    && PcIs(t, p, Publishing(s.queue[s.tail], NilSlot(s.tail)))
    && s.queue[s.tail] in s.ops && s.ops[s.queue[s.tail]].applied
  }

  predicate Fills(s: State, t: State, p: Id)
    requires |s.slots| == SLOTS
  {
    && t.slots == s.slots[s.head % SLOTS := Some(p)] && s.slots[s.head % SLOTS] == None
    && PcIs(s, p, Enqueuing(StoreSlot(s.head))) && PcIs(t, p, Enqueuing(AddHead)) && s.head == t.head
  }

  predicate MustFree(s: State, p: Id) {
    p in s.ops && s.ops[p].pc.Publishing? && s.ops[p].pc.pub.NilSlot?
  }

  predicate Frees(s: State, t: State, p: Id)
    requires |s.slots| == SLOTS
  {
    && MustFree(s, p)
    && t.slots == s.slots[s.ops[p].pc.pub.tail % SLOTS := None]
  }

  predicate Ratchets(s: State, t: State, p: Id) {
    && p in s.ops && s.ops[p].pc.Publishing?
    && s.ops[p].pc.batch in s.ops && t.visibleSeqNum == s.ops[s.ops[p].pc.batch].End()
  }

  ghost predicate Stepped(s: State, t: State, p: Id) {
    SharedStep(s, t, p) && OpsStep(s, t, p) && OpOk(t, p)
  }

  lemma {:induction false} StartSame(s: State, t: State, j: int)
    requires s.origin == t.origin && s.queue <= t.queue && j <= |s.queue| && s.ops.Keys == t.ops.Keys
    requires 0 < j && s.queue[j - 1] in s.ops ==> t.ops[s.queue[j - 1]].End() == s.ops[s.queue[j - 1]].End()
    ensures StartOf(t, j) == StartOf(s, j)
  {
  }

  lemma {:induction false} EnqueueSteps(s: State, p: Id, pc: EnqueuePc)
    requires Globals(s) && PcIs(s, p, Enqueuing(pc)) && OpOk(s, p) && !Blocked(s, p) && s.head < s.tail + SLOTS
    requires s.head > 0 ==> PosOk(s, s.head - 1) && OpOk(s, s.queue[s.head - 1])
    ensures Stepped(s, Enqueue(s, p, pc), p)
  {
    EnqueueOwn(s, p, pc);
    hide StartOf, Globals, PosOk;
  }

  lemma {:induction false} EnqueueOwn(s: State, p: Id, pc: EnqueuePc)
    requires Globals(s) && PcIs(s, p, Enqueuing(pc)) && OpOk(s, p) && !Blocked(s, p) && s.head < s.tail + SLOTS
    requires s.head > 0 ==> PosOk(s, s.head - 1) && OpOk(s, s.queue[s.head - 1])
    ensures OpOk(Enqueue(s, p, pc), p)
  {
    EnqueuePcOk(s, p, pc);
    hide StartOf, PcOk;
  }

  lemma {:induction false} EnqueuePcOk(s: State, p: Id, pc: EnqueuePc)
    requires Globals(s) && PcIs(s, p, Enqueuing(pc)) && OpOk(s, p) && !Blocked(s, p) && s.head < s.tail + SLOTS
    requires s.head > 0 ==> PosOk(s, s.head - 1) && OpOk(s, s.queue[s.head - 1])
    ensures PcOk(Enqueue(s, p, pc), p)
  {
    hide StartOf, DequeueOk, PublishOk;
    StartSame(s, Enqueue(s, p, pc), s.head);
  }

  lemma {:induction false} PrepareSteps(s: State, p: Id, pc: PreparePc)
    requires Globals(s) && PcIs(s, p, Preparing(pc)) && OpOk(s, p) && !Blocked(s, p)
    requires s.head > 1 ==> PosOk(s, s.head - 2)
    ensures Stepped(s, Prepare(s, p, pc), p)
  {
    PrepareOwn(s, p, pc);
    hide StartOf, PosOk;
  }

  lemma {:induction false} PrepareOwn(s: State, p: Id, pc: PreparePc)
    requires Globals(s) && PcIs(s, p, Preparing(pc)) && OpOk(s, p) && !Blocked(s, p)
    requires s.head > 1 ==> PosOk(s, s.head - 2)
    ensures OpOk(Prepare(s, p, pc), p)
  {
    hide StartOf, PosOk, Prepare, Globals, Blocked, Owned;
    PreparePcOk(s, p, pc);
    PrepareStart(s, p, pc);
    PrepareOwned(s, p, pc);
  }

  lemma {:induction false} PrepareStart(s: State, p: Id, pc: PreparePc)
    requires Globals(s) && PcIs(s, p, Preparing(pc)) && OpOk(s, p) && (s.head > 1 ==> PosOk(s, s.head - 2))
    ensures StartOf(Prepare(s, p, pc), s.ops[p].index) == StartOf(s, s.ops[p].index)
  {
    hide StartOf, PcOk;
    StartSame(s, Prepare(s, p, pc), s.head - 1);
  }

  lemma {:induction false} PrepareOwned(s: State, p: Id, pc: PreparePc)
    requires PcIs(s, p, Preparing(pc)) && Owned(s, p) && PrepareOk(s, s.ops[p], pc)
    requires StartOf(Prepare(s, p, pc), s.ops[p].index) == StartOf(s, s.ops[p].index)
    ensures Owned(Prepare(s, p, pc), p)
  {
    hide StartOf;
  }

  lemma {:induction false} PreparePcOk(s: State, p: Id, pc: PreparePc)
    requires Globals(s) && PcIs(s, p, Preparing(pc)) && OpOk(s, p) && !Blocked(s, p)
    requires s.head > 1 ==> PosOk(s, s.head - 2)
    ensures PcOk(Prepare(s, p, pc), p)
  {
    PrepareStart(s, p, pc);
    hide StartOf, EnqueueOk, DequeueOk, PublishOk, PosOk, Globals;
  }

  predicate Waiting(s: State, b: Id) {
    b in s.ops && s.ops[b].index == s.tail && !s.ops[b].done
  }

  ghost predicate OldestOk(s: State) {
    && |s.slots| == SLOTS && s.tail <= s.head == |s.queue| && |s.carrier| == s.tail
    && (s.tail < s.head ==> s.slots[s.tail % SLOTS] == Some(s.queue[s.tail]) && Waiting(s, s.queue[s.tail]))
  }

  lemma {:induction false} DequeueSteps(s: State, p: Id, pc: DequeuePc)
    requires OldestOk(s) && PcIs(s, p, Dequeuing(pc)) && OpOk(s, p)
    ensures Stepped(s, Dequeue(s, p, pc), p)
  {
    DequeueOwn(s, p, pc);
    hide StartOf;
    hide PublishOk;
  }

  lemma {:induction false} DequeueOwn(s: State, p: Id, pc: DequeuePc)
    requires OldestOk(s) && PcIs(s, p, Dequeuing(pc)) && OpOk(s, p)
    ensures OpOk(Dequeue(s, p, pc), p)
  {
    DequeuePcOk(s, p, pc);
    StartSame(s, Dequeue(s, p, pc), s.ops[p].index);
    hide StartOf, PcOk, OldestOk;
  }

  lemma {:induction false} DequeuePcOk(s: State, p: Id, pc: DequeuePc)
    requires OldestOk(s) && PcIs(s, p, Dequeuing(pc)) && OpOk(s, p)
    ensures PcOk(Dequeue(s, p, pc), p)
  {
    hide StartOf, Owned, EnqueueOk, PrepareOk;
  }

  lemma {:induction false} PublishSteps(s: State, p: Id, b: Id, pc: PublishPc)
    requires |s.slots| == SLOTS && PcIs(s, p, Publishing(b, pc)) && OpOk(s, p)
    ensures Stepped(s, Publish(s, p, b, pc), p)
  {
    PublishOwn(s, p, b, pc);
    PublishOps(s, p, b, pc);
    hide StartOf, OpOk, OpsStep;
    assert PublishOk(s, p, b, pc) by { PublishingIs(s, p, b, pc); }
  }

  lemma {:induction false} PublishingIs(s: State, p: Id, b: Id, pc: PublishPc)
    requires |s.slots| == SLOTS && PcIs(s, p, Publishing(b, pc)) && OpOk(s, p)
    ensures PublishOk(s, p, b, pc)
  {
  }

  lemma {:induction false} PublishOps(s: State, p: Id, b: Id, pc: PublishPc)
    requires |s.slots| == SLOTS && PcIs(s, p, Publishing(b, pc)) && OpOk(s, p)
    ensures OpsStep(s, Publish(s, p, b, pc), p)
  {
    hide StartOf, Owned;
  }

  lemma {:induction false} PublishOwn(s: State, p: Id, b: Id, pc: PublishPc)
    requires |s.slots| == SLOTS && PcIs(s, p, Publishing(b, pc)) && OpOk(s, p)
    ensures OpOk(Publish(s, p, b, pc), p)
  {
    PublishPcOk(s, p, b, pc);
    PublishingIs(s, p, b, pc);
    StartSame(s, Publish(s, p, b, pc), s.ops[p].index);
    hide StartOf, PcOk;
  }

  lemma {:induction false} PublishPcOk(s: State, p: Id, b: Id, pc: PublishPc)
    requires |s.slots| == SLOTS && PcIs(s, p, Publishing(b, pc)) && OpOk(s, p)
    ensures PcOk(Publish(s, p, b, pc), p)
  {
    hide StartOf, Owned;
  }

  predicate Plain(pc: Pc) {
    !pc.Enqueuing? && !pc.Preparing? && !pc.Dequeuing? && !pc.Publishing?
  }

  lemma {:induction false} EnterSteps(s: State, p: Id, pc: Pc)
    requires |s.slots| == SLOTS && PcIs(s, p, pc) && OpOk(s, p) && Plain(pc) && !Blocked(s, p)
    ensures Stepped(s, Enter(s, p, pc), p)
  {
    EnterOwn(s, p, pc);
    EnterOps(s, p, pc);
    EnterShared(s, p, pc);
    hide OpOk, OpsStep, SharedStep;
  }

  lemma {:induction false} EnterOps(s: State, p: Id, pc: Pc)
    requires |s.slots| == SLOTS && PcIs(s, p, pc) && OpOk(s, p) && Plain(pc) && !Blocked(s, p)
    ensures OpsStep(s, Enter(s, p, pc), p)
  {
    hide StartOf, PcOk;
  }

  lemma {:induction false} EnterShared(s: State, p: Id, pc: Pc)
    requires |s.slots| == SLOTS && PcIs(s, p, pc) && OpOk(s, p) && Plain(pc) && !Blocked(s, p)
    ensures SharedStep(s, Enter(s, p, pc), p)
  {
    hide StartOf, PcOk, InWAL;
  }

  lemma {:induction false} EnterOwn(s: State, p: Id, pc: Pc)
    requires |s.slots| == SLOTS && PcIs(s, p, pc) && OpOk(s, p) && Plain(pc) && !Blocked(s, p)
    ensures OpOk(Enter(s, p, pc), p)
  {
    EnterPcOk(s, p, pc);
    if pc.WantSem? || pc.WantLock? { EnterOwned(s, p, pc); } else { EnterOwnedLater(s, p, pc); }
    hide Owned, PcOk;
  }

  lemma {:induction false} EnterOwned(s: State, p: Id, pc: Pc)
    requires |s.slots| == SLOTS && PcIs(s, p, pc) && Owned(s, p) && !Blocked(s, p) && (pc.WantSem? || pc.WantLock?)
    ensures Owned(Enter(s, p, pc), p)
  {
    hide StartOf;
  }

  lemma {:induction false} EnterOwnedLater(s: State, p: Id, pc: Pc)
    requires |s.slots| == SLOTS && PcIs(s, p, pc) && Owned(s, p) && Plain(pc) && !Blocked(s, p) && pc.Queued()
    ensures Owned(Enter(s, p, pc), p)
  {
    StartSame(s, Enter(s, p, pc), s.ops[p].index);
    hide StartOf;
  }

  lemma {:induction false} EnterPcOk(s: State, p: Id, pc: Pc)
    requires |s.slots| == SLOTS && PcIs(s, p, pc) && Plain(pc) && !Blocked(s, p)
    ensures PcOk(Enter(s, p, pc), p)
  {
    hide StartOf, PrepareOk, PublishOk;
  }

  // --- stability -----------------------------------------------------------

  lemma {:induction false} StartStays(s: State, t: State, p: Id, j: nat)
    requires Globals(s) && OpsStep(s, t, p) && SharedStep(s, t, p)
    requires 0 < j <= |s.queue| ==> PosOk(s, j - 1) && s.ops[s.queue[j - 1]].pc.Sequenced()
    requires j <= |s.queue|
    ensures StartOf(t, j) == StartOf(s, j)
  {
  }

  lemma {:induction false} OthersOk(s: State, t: State, p: Id, q: Id)
    requires Globals(s) && Stepped(s, t, p) && OpOk(s, p) && q in s.ops && q != p && OpOk(s, q)
    requires s.ops[q].pc.Queued() ==> StartOf(t, s.ops[q].index) == StartOf(s, s.ops[q].index)
    ensures OpOk(t, q)
  {
    OthersPcOk(s, t, p, q);
    hide StartOf, PcOk;
  }

  lemma {:induction false} OthersPcOk(s: State, t: State, p: Id, q: Id)
    requires s.tail <= s.head == |s.queue| && Stepped(s, t, p) && OpOk(s, p) && q in s.ops && q != p && OpOk(s, q)
    requires s.ops[q].pc.Queued() ==> StartOf(t, s.ops[q].index) == StartOf(s, s.ops[q].index)
    ensures PcOk(t, q)
  {
    if s.ops[q].pc.Enqueuing? { OthersEnqueueOk(s, t, p, q); }
    if s.ops[q].pc.Dequeuing? { OthersDequeueOk(s, t, p, q); }
    if s.ops[q].pc.Publishing? { OthersPublishOk(s, t, p, q); }
    hide StartOf, EnqueueOk, DequeueOk, PublishOk;
  }

  lemma {:induction false} OthersEnqueueOk(s: State, t: State, p: Id, q: Id)
    requires s.tail <= s.head == |s.queue| && Stepped(s, t, p) && OpOk(s, p) && q in s.ops && q != p && OpOk(s, q)
    requires s.ops[q].pc.Enqueuing?
    ensures EnqueueOk(t, q, s.ops[q].pc.enq)
  {
    hide StartOf, PrepareOk, DequeueOk;
  }

  lemma {:induction false} OthersDequeueOk(s: State, t: State, p: Id, q: Id)
    requires s.tail <= s.head == |s.queue| && Stepped(s, t, p) && OpOk(s, p) && q in s.ops && q != p && OpOk(s, q)
    requires s.ops[q].pc.Dequeuing?
    ensures DequeueOk(t, s.ops[q].pc.deq)
  {
    hide StartOf, Owned, EnqueueOk, PrepareOk, PublishOk;
  }

  lemma {:induction false} OthersPublishOk(s: State, t: State, p: Id, q: Id)
    requires Stepped(s, t, p) && OpOk(s, p) && q in s.ops && q != p && OpOk(s, q) && s.ops[q].pc.Publishing?
    ensures PublishOk(t, q, s.ops[q].pc.batch, s.ops[q].pc.pub)
  {
    hide StartOf, EnqueueOk, PrepareOk, DequeueOk, Appends;
  }

  lemma {:induction false} PosStays(s: State, t: State, p: Id, j: nat)
    requires Globals(s) && SharedStep(s, t, p) && OpsStep(s, t, p) && OpOk(s, p)
    requires j < |s.queue| && PosOk(s, j) && OpOk(s, s.queue[j])
    ensures PosOk(t, j)
  {
    if j < t.tail { TakenStays(s, t, p, j); } else { StillInSlot(s, t, p, j); }
    BatchStays(s, t, p, j);
    hide StartOf, OpOk, SharedStep, OpsStep, Carried;
  }

  lemma {:induction false} BatchStays(s: State, t: State, p: Id, j: nat)
    requires Globals(s) && SharedStep(s, t, p) && OpsStep(s, t, p) && OpOk(s, p)
    requires j < |s.queue| && PosOk(s, j) && OpOk(s, s.queue[j])
    ensures j < |t.queue| && t.queue[j] == s.queue[j] && t.queue[j] in t.ops
    ensures var op := t.ops[t.queue[j]]; op.pc.Queued() && op.index == j && (op.pc.Sequenced() || j == t.head - 1)
  {
    hide StartOf, PcOk, Carried, Takes, Fills, Frees, Ratchets;
  }

  /** A batch that was dequeued has been published or is being published by whoever dequeued it. */
  lemma {:induction false} TakenStays(s: State, t: State, p: Id, j: nat)
    requires Globals(s) && SharedStep(s, t, p) && OpsStep(s, t, p) && j < |s.queue| && PosOk(s, j) && j < t.tail
    ensures t.queue[j] == s.queue[j] && t.ops[t.queue[j]].applied && (t.ops[t.queue[j]].done || Carried(t, j))
  {
    hide StartOf, Fills, Frees, Ratchets;
  }

  lemma {:induction false} StillInSlot(s: State, t: State, p: Id, j: nat)
    requires Globals(s) && SharedStep(s, t, p) && OpsStep(s, t, p) && OpOk(s, p)
    requires j < |s.queue| && PosOk(s, j) && j >= t.tail
    ensures t.queue[j] == s.queue[j] && t.slots[j % SLOTS] == Some(t.queue[j])
  {
    hide StartOf, PrepareOk, DequeueOk, Ratchets, Carried;
  }

  lemma {:induction false} PosNew(s: State, t: State, p: Id)
    requires Globals(s) && Stepped(s, t, p) && OpOk(s, p) && Appends(s, t, p)
    ensures PosOk(t, s.head)
  {
    hide StartOf;
  }

  lemma {:induction false} SlotStays(s: State, t: State, p: Id, i: nat)
    requires Globals(s) && SharedStep(s, t, p) && OpsStep(s, t, p) && OpOk(s, p)
    requires i < SLOTS && SlotOk(s, i) && (s.slots[i].Some? ==> OpOk(s, s.slots[i].value))
    ensures SlotOk(t, i)
  {
    hide StartOf, PrepareOk, DequeueOk;
    if t.slots[i] == s.slots[i] && s.slots[i].Some? {
      var b := s.slots[i].value;
      if s.ops[b].pc.Queued() { SlotOfQueued(s, t, p, i, b); }
    }
  }

  lemma {:induction false} SlotOfQueued(s: State, t: State, p: Id, i: nat, b: Id)
    requires Globals(s) && SharedStep(s, t, p) && OpsStep(s, t, p) && OpOk(s, p)
    requires i < SLOTS && SlotOk(s, i) && s.slots[i] == Some(b) == t.slots[i] && OpOk(s, b) && s.ops[b].pc.Queued()
    ensures t.ops[b].pc.Queued() && t.ops[b].index == s.ops[b].index
    ensures t.ops[b].index >= t.tail || NilsNext(t, t.ops[b].index)
  {
    hide StartOf, PcOk;
  }

  lemma {:induction false} LoggedStays(s: State, t: State, p: Id, i: nat)
    requires Stepped(s, t, p) && i < |s.wal| && Logged(s, i) && OpOk(s, s.wal[i])
    ensures i < |t.wal| && Logged(t, i)
  {
    hide StartOf, PcOk;
  }

  lemma {:induction false} LoggedNew(s: State, t: State, p: Id)
    requires Stepped(s, t, p) && OpOk(s, p) && s.head == |s.queue| && t.wal == s.wal + [p]
    requires PcIs(s, p, Preparing(WriteWAL))
    requires |s.wal| > 0 ==> Logged(s, |s.wal| - 1) && OpOk(s, s.wal[|s.wal| - 1])
    ensures Logged(t, |s.wal|)
  {
    hide StartOf;
    assert |s.wal| > 0 ==> t.wal[|s.wal| - 1] == s.wal[|s.wal| - 1];
  }

  lemma {:induction false} GlobalsStay(s: State, t: State, p: Id)
    requires Globals(s) && Stepped(s, t, p) && OpOk(s, p)
    requires s.head > 0 ==> PosOk(s, s.head - 1) && OpOk(s, s.queue[s.head - 1])
    ensures Globals(t)
  {
    LogStays(s, t, p);
    SemStays(s, t, p);
    LockStays(s, t, p);
    QueueStays(s, t, p);
    hide StartOf, OpOk, SharedStep, OpsStep, PosOk;
  }

  lemma {:induction false} SemStays(s: State, t: State, p: Id)
    requires |s.sem| <= SLOTS - 1 && s.sem <= s.ops.Keys && SharedStep(s, t, p) && OpsStep(s, t, p)
    ensures |t.sem| <= SLOTS - 1 && t.sem <= t.ops.Keys
  {
    hide OwnStep, Appends, Takes, Fills, Frees, Ratchets;
    if t.sem == s.sem - {p} { SubsetSize(t.sem, s.sem); }
  }

  lemma {:induction false} LockStays(s: State, t: State, p: Id)
    requires Globals(s) && SharedStep(s, t, p) && OpsStep(s, t, p)
    ensures t.mu.Some? ==> t.mu.value in t.ops && t.ops[t.mu.value].pc.HoldsLock()
  {
    hide OwnStep, StartOf, Appends, Takes, Fills, Frees, Ratchets;
  }

  lemma {:induction false} QueueStays(s: State, t: State, p: Id)
    requires Globals(s) && SharedStep(s, t, p)
    ensures |t.slots| == SLOTS && t.tail <= t.head == |t.queue| && |t.carrier| == t.tail && t.origin <= t.logSeqNum
  {
    hide StartOf, Fills, Frees, Ratchets;
  }

  lemma {:induction false} LogStays(s: State, t: State, p: Id)
    requires Globals(s) && Stepped(s, t, p) && OpOk(s, p)
    requires s.head > 0 ==> PosOk(s, s.head - 1) && OpOk(s, s.queue[s.head - 1])
    ensures t.head > 0 ==> t.queue[t.head - 1] in t.ops
    ensures t.head == 0 || t.ops[t.queue[t.head - 1]].pc.Sequenced() ==> t.logSeqNum == StartOf(t, t.head)
  {
    hide PcOk, Takes, Fills, Frees, Ratchets, Carried;
    if t.head > 0 && t.ops[t.queue[t.head - 1]].pc.Sequenced() {
      var last := t.queue[t.head - 1];
      if s.ops[p].pc.Preparing? {
        assert last == p;
      } else {
        assert last != p ==> t.ops[last].pc == s.ops[last].pc;
      }
    }
  }

  lemma {:induction false} VisibleStays(s: State, t: State, p: Id, k: nat)
    requires Globals(s) && Stepped(s, t, p) && OpOk(s, p) && VisibleAt(s, k)
    requires k > 0 ==> PosOk(s, k - 1) && OpOk(s, s.queue[k - 1])
    requires s.ops[p].pc.Publishing? ==> OpOk(s, s.ops[p].pc.batch)
    ensures exists l :: VisibleAt(t, l)
  {
    if t.visibleSeqNum == s.visibleSeqNum {
      StartStays(s, t, p, k);
      assert VisibleAt(t, k);
    } else {
      assert VisibleAt(t, s.ops[s.ops[p].pc.batch].index + 1);
    }
  }

  // --- a step keeps a goroutine that will find the oldest batch -------------

  lemma {:induction false} AttemptStays(s: State, t: State, p: Id)
    requires Inv(s) && Stepped(s, t, p) && t == Step(s, p) && !Blocked(s, p)
    ensures OldestApplied(t) ==> exists q :: Attempts(t, q)
  {
    assert OpOk(s, p);
    if s.tail < |s.queue| { assert PosOk(s, s.tail); }
    hide SlotOk, Logged, StartOf, Owned, PcOk, Step, Blocked;
    if t.tail != s.tail {
      assert Attempts(t, p);
    } else if OldestApplied(t) {
      assert t.queue[t.tail] == p || t.ops[t.queue[t.tail]].applied == s.ops[t.queue[t.tail]].applied;
      if OldestApplied(s) {
        var q :| Attempts(s, q);
        if q == p { OwnAttempt(s, p); }
        assert Attempts(t, q);
      } else {
        assert Attempts(t, p);
      }
    }
  }

  lemma {:induction false} OwnAttempt(s: State, p: Id)
    requires Globals(s) && Attempts(s, p) && OldestApplied(s) && OpOk(s, p) && PosOk(s, s.tail)
    ensures Attempts(Step(s, p), p)
  {
    hide StartOf, Enqueue, Prepare;
  }

  // --- every run -----------------------------------------------------------

  /** The batches at positions `tail` up to `n`. */
  ghost function Pending(s: State, n: nat): set<Id>
    requires n <= |s.queue|
  {
    if n <= s.tail then {} else Pending(s, n - 1) + {s.queue[n - 1]}
  }

  lemma {:induction false} PendingInSem(s: State, n: nat)
    requires Inv(s) && s.tail <= n <= s.head
    ensures |Pending(s, n)| == n - s.tail && Pending(s, n) <= s.sem
    ensures forall b :: b in Pending(s, n) ==> b in s.ops && s.ops[b].index < n
  {
    if n > s.tail {
      PendingInSem(s, n - 1);
      assert PosOk(s, n - 1) && OpOk(s, s.queue[n - 1]);
    }
  }

  lemma {:induction false} SubsetSize(a: set<Id>, b: set<Id>)
    requires a <= b
    ensures |a| <= |b|
  {
    if a != {} {
      var x :| x in a;
      SubsetSize(a - {x}, b - {x});
    }
  }

  /** The semaphore keeps the ring from filling up. */
  lemma {:induction false} NeverFull(s: State)
    requires Inv(s)
    ensures s.head < s.tail + SLOTS
  {
    PendingInSem(s, s.head);
    SubsetSize(Pending(s, s.head), s.sem);
  }

  lemma {:induction false} OldestIs(s: State)
    requires Inv(s)
    ensures OldestOk(s)
  {
    hide StartOf, PcOk, SlotOk, Logged;
    if s.tail < s.head { assert PosOk(s, s.tail); assert OpOk(s, s.queue[s.tail]); }
  }

  lemma {:induction false} StepIs(s: State, p: Id)
    requires Inv(s) && p in s.ops && !Blocked(s, p)
    ensures Stepped(s, Step(s, p), p)
  {
    assert OpOk(s, p);
    if s.ops[p].pc.Publishing? { PublishingIs(s, p, s.ops[p].pc.batch, s.ops[p].pc.pub); }
    hide StartOf, Owned, PcOk, SlotOk, Logged, Stepped, OldestOk, Enqueue, Prepare, Dequeue, Publish, Enter;
    var pc := s.ops[p].pc;
    if pc.Enqueuing? {
      NeverFull(s);
      if s.head > 0 { assert PosOk(s, s.head - 1); assert OpOk(s, s.queue[s.head - 1]); }
      EnqueueSteps(s, p, pc.enq);
    } else if pc.Preparing? {
      if s.head > 1 { assert PosOk(s, s.head - 2); }
      PrepareSteps(s, p, pc.prep);
    } else if pc.Dequeuing? {
      OldestIs(s);
      DequeueSteps(s, p, pc.deq);
    } else if pc.Publishing? {
      PublishSteps(s, p, pc.batch, pc.pub);
    } else {
      EnterSteps(s, p, pc);
    }
  }

  lemma {:induction false} OpsKept(s: State, t: State, p: Id, q: Id)
    requires Inv(s) && Stepped(s, t, p) && q in s.ops
    ensures OpOk(t, q)
  {
    if q != p {
      assert OpOk(s, p) && OpOk(s, q);
      var j := s.ops[q].index;
      if s.ops[q].pc.Queued() {
        if j > 0 { assert PosOk(s, j - 1); }
        StartStays(s, t, p, j);
      }
      OthersOk(s, t, p, q);
    }
  }

  lemma {:induction false} PosKept(s: State, t: State, p: Id, j: nat)
    requires Inv(s) && Stepped(s, t, p) && j < |t.queue|
    ensures PosOk(t, j)
  {
    assert OpOk(s, p);
    if j < |s.queue| {
      assert PosOk(s, j) && OpOk(s, s.queue[j]);
      PosStays(s, t, p, j);
    } else {
      PosNew(s, t, p);
    }
  }

  lemma {:induction false} SlotKept(s: State, t: State, p: Id, i: nat)
    requires Inv(s) && Stepped(s, t, p) && i < SLOTS
    ensures SlotOk(t, i)
  {
    assert OpOk(s, p) && SlotOk(s, i);
    if s.slots[i].Some? { assert OpOk(s, s.slots[i].value); }
    SlotStays(s, t, p, i);
  }

  lemma {:induction false} LoggedKept(s: State, t: State, p: Id, i: nat)
    requires Inv(s) && Stepped(s, t, p) && i < |t.wal|
    ensures Logged(t, i)
  {
    assert OpOk(s, p);
    if i < |s.wal| {
      assert Logged(s, i) && OpOk(s, s.wal[i]);
      LoggedStays(s, t, p, i);
    } else {
      if i > 0 { assert Logged(s, i - 1) && OpOk(s, s.wal[i - 1]); }
      LoggedNew(s, t, p);
    }
  }

  lemma {:induction false} RestKept(s: State, t: State, p: Id)
    requires Inv(s) && Stepped(s, t, p)
    ensures Globals(t) && exists k :: VisibleAt(t, k)
  {
    assert OpOk(s, p);
    if s.head > 0 { assert PosOk(s, s.head - 1) && OpOk(s, s.queue[s.head - 1]); }
    GlobalsStay(s, t, p);
    var k: nat :| VisibleAt(s, k);
    if k > 0 { assert PosOk(s, k - 1) && OpOk(s, s.queue[k - 1]); }
    if s.ops[p].pc.Publishing? { assert OpOk(s, s.ops[p].pc.batch); }
    VisibleStays(s, t, p, k);
  }

  lemma {:induction false} StepKeeps(s: State, p: Id)
    requires Inv(s) && p in s.ops
    ensures Inv(Step(s, p)) && s.visibleSeqNum <= Step(s, p).visibleSeqNum
  {
    if !Blocked(s, p) {
      var t := Step(s, p);
      StepIs(s, p);
      RestKept(s, t, p);
      AttemptStays(s, t, p);
      forall q | q in t.ops ensures OpOk(t, q) { OpsKept(s, t, p, q); }
      forall j: nat | j < |t.queue| ensures PosOk(t, j) { PosKept(s, t, p, j); }
      forall i: nat | i < SLOTS ensures SlotOk(t, i) { SlotKept(s, t, p, i); }
      forall i: nat | i < |t.wal| ensures Logged(t, i) { LoggedKept(s, t, p, i); }
    }
  }

  lemma {:induction false} StartOpKept(s: State, t: State, q: Id)
    requires t == s.(ops := t.ops) && |s.slots| == SLOTS && q in s.ops && OpOk(s, q)
    requires s.ops.Keys <= t.ops.Keys && forall r {:trigger t.ops[r]} :: r in s.ops ==> t.ops[r] == s.ops[r]
    requires s.ops[q].pc.Queued() && s.ops[q].index > 0 ==> PosOk(s, s.ops[q].index - 1)
    ensures OpOk(t, q)
  {
    assert s.ops[q].pc.Queued() ==> StartOf(t, s.ops[q].index) == StartOf(s, s.ops[q].index);
    hide StartOf;
  }

  lemma {:induction false} StartKeeps(s: State, id: Id, role: Role, count: nat)
    requires Inv(s) && id !in s.ops
    ensures Inv(Do(s, Start(id, role, count)))
  {
    var t := Do(s, Start(id, role, count));
    StartOpsKept(s, t, id);
    StartRestKept(s, t);
    hide OpOk;
    forall j: nat | j < |t.queue| ensures PosOk(t, j) { assert PosOk(s, j); }
    forall i: nat | i < SLOTS ensures SlotOk(t, i) { assert SlotOk(s, i); }
    forall i: nat | i < |t.wal| ensures Logged(t, i) { assert Logged(s, i); }
  }

  lemma {:induction false} StartOpsKept(s: State, t: State, id: Id)
    requires Inv(s) && id !in s.ops && t == s.(ops := t.ops) && t.ops.Keys == s.ops.Keys + {id}
    requires forall r {:trigger t.ops[r]} :: r in s.ops ==> t.ops[r] == s.ops[r]
    requires t.ops[id].pc == WantSem && !t.ops[id].applied && !t.ops[id].done
    ensures forall q {:trigger OpOk(t, q)} :: q in t.ops ==> OpOk(t, q)
  {
    forall q | q in t.ops ensures OpOk(t, q) {
      if q != id {
        assert OpOk(s, q);
        var j := s.ops[q].index;
        if s.ops[q].pc.Queued() && j > 0 { assert PosOk(s, j - 1); }
        StartOpKept(s, t, q);
      }
    }
  }

  lemma {:induction false} StartRestKept(s: State, t: State)
    requires Inv(s) && t == s.(ops := t.ops) && s.ops.Keys <= t.ops.Keys
    requires forall r {:trigger t.ops[r]} :: r in s.ops ==> t.ops[r] == s.ops[r]
    ensures (exists k :: VisibleAt(t, k)) && (OldestApplied(t) ==> exists p :: Attempts(t, p))
  {
    hide OpOk;
    var k: nat :| VisibleAt(s, k);
    if k > 0 { assert PosOk(s, k - 1); }
    assert VisibleAt(t, k);
    if OldestApplied(t) {
      assert PosOk(s, s.tail);
      var q :| Attempts(s, q);
      assert Attempts(t, q);
    }
  }

  /** The state after a run from an empty pipeline whose sequence numbers start at `seqNum`. */
  function Run(seqNum: nat, run: seq<Action>): (s: State)
    ensures |s.slots| == SLOTS
  {
    if run == [] then Init(seqNum) else Do(Run(seqNum, run[..|run| - 1]), run[|run| - 1])
  }

  lemma {:induction false} RunKeeps(seqNum: nat, run: seq<Action>)
    ensures Inv(Run(seqNum, run))
  {
    if run == [] {
      var s := Init(seqNum);
      assert VisibleAt(s, 0);
    } else {
      RunKeeps(seqNum, run[..|run| - 1]);
      var s := Run(seqNum, run[..|run| - 1]);
      match run[|run| - 1]
      case Start(id, role, count) => if id !in s.ops { StartKeeps(s, id, role, count); }
      case Take(id) => if id in s.ops { StepKeeps(s, id); }
    }
  }

  // --- what the pipeline promises ------------------------------------------

  /** The ring, read from tail to head. */
  function Contents(s: State): seq<Option<Id>>
    requires |s.slots| == SLOTS && s.tail <= s.head
  {
    seq(s.head - s.tail, i requires 0 <= i => s.slots[(s.tail + i) % SLOTS])
  }

  lemma {:induction false} ContentsAre(s: State)
    requires Inv(s)
    ensures |s.slots| == SLOTS && s.tail <= s.head == |s.queue| && |Contents(s)| == s.head - s.tail
    ensures forall i :: 0 <= i < |s.queue| - s.tail ==> Contents(s)[i] == Some(s.queue[s.tail + i])
  {
    forall i | 0 <= i < |s.queue| - s.tail ensures Contents(s)[i] == Some(s.queue[s.tail + i]) {
      assert PosOk(s, s.tail + i);
    }
  }

  /** The effect of a step on the ring's contents: adding to head appends the caller's batch, a
      successful CAS removes the first batch, which is applied, and hands it to the caller, and no
      other step changes them. */
  ghost predicate FifoStep(s: State, t: State, p: Id)
    requires |s.slots| == SLOTS == |t.slots| && s.tail <= s.head && t.tail <= t.head && p in s.ops && p in t.ops
  {
    if s.ops[p].pc == Enqueuing(AddHead) then
      Contents(t) == Contents(s) + [Some(p)]
    else if s.ops[p].pc.Dequeuing? && t.ops[p].pc.Publishing? then
      var b := t.ops[p].pc.batch;
      b in s.ops && s.ops[b].applied && Contents(s) == [Some(b)] + Contents(t)
    else
      Contents(t) == Contents(s)
  }

  lemma {:induction false} StepIsFifo(s: State, t: State, p: Id)
    requires Inv(s) && Inv(t) && Stepped(s, t, p)
    requires (t.ops[p].pc.Publishing? && s.ops[p].pc.Dequeuing? ==> t.tail != s.tail)
    ensures FifoStep(s, t, p)
  {
    hide Inv, OpOk;
    ContentsAre(s);
    ContentsAre(t);
    hide Contents;
    if Takes(s, t, p) {
      assert Contents(s) == [Some(s.queue[s.tail])] + Contents(t);
    } else if Appends(s, t, p) {
      assert Contents(t) == Contents(s) + [Some(p)];
    } else {
      assert Contents(t) == Contents(s);
    }
  }

  lemma {:induction false} TakesByCas(s: State, p: Id)
    requires Inv(s) && p in s.ops && s.ops[p].pc.Dequeuing? && PcIs(Step(s, p), p, Step(s, p).ops[p].pc)
    ensures Step(s, p).ops[p].pc.Publishing? ==> Step(s, p).tail != s.tail
  {
    hide Inv;
  }

  /** The states that runs reach. */
  ghost predicate Reached(s: State) {
    exists seqNum: nat, run :: s == Run(seqNum, run)
  }

  lemma {:induction false} ReachedInv(s: State)
    requires Reached(s)
    ensures Inv(s)
  {
    var seqNum: nat, run :| s == Run(seqNum, run);
    RunKeeps(seqNum, run);
  }

  /** The lock-free ring is a FIFO queue. Nothing panics, and a store never overwrites a batch. */
  lemma {:induction false} RingIsFifo(s: State, p: Id)
    requires Reached(s) && p in s.ops
    ensures |s.slots| == SLOTS && s.tail <= s.head < s.tail + SLOTS && s.ops[p].pc != Panic
    ensures s.ops[p].pc.Enqueuing? && s.ops[p].pc.enq.StoreSlot? ==> s.slots[s.ops[p].pc.enq.head % SLOTS] == None
    ensures var t := Step(s, p); |t.slots| == SLOTS && t.tail <= t.head && p in t.ops && FifoStep(s, t, p)
  {
    ReachedInv(s);
    NeverFull(s);
    assert OpOk(s, p);
    if !Blocked(s, p) {
      var t := Step(s, p);
      StepIs(s, p);
      StepKeeps(s, p);
      if s.ops[p].pc.Dequeuing? { TakesByCas(s, p); }
      StepIsFifo(s, t, p);
    }
  }

  /** No lost publication: when no goroutine is about to look at the oldest pending batch again,
      because every one that has applied its batch waits or has returned, that batch is unapplied. */
  lemma {:induction false} NoLostPublication(s: State)
    requires Reached(s) && s.tail < s.head
    ensures s.head == |s.queue| && s.queue[s.tail] in s.ops
    ensures s.ops[s.queue[s.tail]].applied ==> exists p :: Attempts(s, p)
    ensures (forall p :: p in s.ops && s.ops[p].applied ==> s.ops[p].pc.Wait? || s.ops[p].pc.Leave? || s.ops[p].pc.Finished?)
            ==> !s.ops[s.queue[s.tail]].applied
  {
    ReachedInv(s);
    assert PosOk(s, s.tail);
    if s.ops[s.queue[s.tail]].applied {
      var p :| Attempts(s, p);
      assert OpOk(s, p);
    }
  }

  lemma {:induction false} StartMonotone(s: State, i: nat, j: nat)
    requires Inv(s) && i <= j <= s.head
    requires (j == s.head > 0 ==> s.queue[j - 1] in s.ops && s.ops[s.queue[j - 1]].pc.Sequenced())
    ensures s.origin <= StartOf(s, i) <= StartOf(s, j)
    decreases j
  {
    if j > 0 {
      assert PosOk(s, j - 1) && OpOk(s, s.queue[j - 1]);
      StartMonotone(s, if i < j then i else j - 1, j - 1);
    }
  }

  /** A sequence number below the first `k` batches' end belongs to one of them. */
  lemma {:induction false} FindBatch(s: State, k: nat, n: nat) returns (j: nat)
    requires Inv(s) && k <= s.tail && s.origin <= n < StartOf(s, k) && n > 0
    ensures j < k && s.queue[j] in s.ops && s.ops[s.queue[j]].applied
    ensures s.ops[s.queue[j]].seqNum <= n < s.ops[s.queue[j]].End()
    decreases k
  {
    assert PosOk(s, k - 1) && OpOk(s, s.queue[k - 1]);
    if n >= StartOf(s, k - 1) { j := k - 1; } else { j := FindBatch(s, k - 1, n); }
  }

  /** Batch `j` of the queue owns sequence number `n`. */
  predicate Owns(s: State, j: nat, n: nat) {
    && j < |s.queue| && s.queue[j] in s.ops
    && s.ops[s.queue[j]].seqNum <= n < s.ops[s.queue[j]].End()
  }

  lemma {:induction false} VisibleIsBoundary(s: State) returns (k: nat)
    requires Inv(s)
    ensures VisibleAt(s, k) && s.origin <= s.visibleSeqNum <= s.logSeqNum
    ensures k == s.head > 0 ==> s.queue[k - 1] in s.ops && s.ops[s.queue[k - 1]].pc.Sequenced()
  {
    k :| VisibleAt(s, k);
    if k > 0 { assert PosOk(s, k - 1) && OpOk(s, s.queue[k - 1]); }
    StartMonotone(s, 0, k);
    LogIsLast(s, k);
  }

  /** The visible sequence number never passes the log sequence number, and whatever lies below it, apart from a 0
      that was passed over, belongs to an applied batch. */
  lemma {:induction false} VisibleIsApplied(s: State)
    requires Reached(s)
    ensures s.origin <= s.visibleSeqNum <= s.logSeqNum
    ensures forall n: nat :: s.origin <= n < s.visibleSeqNum && n > 0 ==> AppliedAt(s, n)
  {
    ReachedInv(s);
    var k := VisibleIsBoundary(s);
    forall n: nat | s.origin <= n < s.visibleSeqNum && n > 0 ensures AppliedAt(s, n) {
      var j := FindBatch(s, k, n);
      assert Owns(s, j, n);
    }
  }

  /** Sequence number `n` belongs to an applied batch. */
  ghost predicate AppliedAt(s: State, n: nat) {
    exists j: nat :: Owns(s, j, n) && s.ops[s.queue[j]].applied
  }

  /** Batches become visible as a whole. */
  lemma {:induction false} VisibleIsAtomic(s: State, p: Id)
    requires Reached(s) && p in s.ops && s.ops[p].pc.Sequenced()
    ensures s.ops[p].End() <= s.visibleSeqNum || s.visibleSeqNum <= s.ops[p].seqNum
  {
    ReachedInv(s);
    var k := VisibleIsBoundary(s);
    assert OpOk(s, p);
    var j := s.ops[p].index;
    assert StartOf(s, j + 1) == s.ops[p].End();
    if j < k { StartMonotone(s, j + 1, k); } else { StartMonotone(s, k, j); }
  }

  /** A read at the visible sequence number sees all records of a batch or none, and all only if it is applied. */
  lemma {:induction false} ReadsAreAtomic(s: State, p: Id, m: nat, n: nat)
    requires Reached(s) && p in s.ops && s.ops[p].pc.Sequenced() && s.ops[p].End() <= InternalKeys.SEQ_NUM_BATCH
    requires s.ops[p].seqNum <= m < s.ops[p].End() && s.ops[p].seqNum <= n < s.ops[p].End()
    ensures InternalKeys.Visible(m, s.visibleSeqNum) <==> InternalKeys.Visible(n, s.visibleSeqNum)
    ensures InternalKeys.Visible(m, s.visibleSeqNum) ==> s.ops[p].applied
  {
    ReachedInv(s);
    VisibleIsAtomic(s, p);
    if m < s.visibleSeqNum { AppliedBelow(s, p); }
  }

  lemma {:induction false} AppliedBelow(s: State, p: Id)
    requires Inv(s) && p in s.ops && s.ops[p].pc.Sequenced() && s.ops[p].count > 0 && s.ops[p].End() <= s.visibleSeqNum
    ensures s.ops[p].applied
  {
    var k :| VisibleAt(s, k);
    assert OpOk(s, p);
    var j := s.ops[p].index;
    if k <= j { StartMonotone(s, k, j); }
    assert PosOk(s, j);
  }

  lemma {:induction false} LogIsLast(s: State, k: nat)
    requires Inv(s) && k <= s.head
    requires (k == s.head > 0 ==> s.queue[k - 1] in s.ops && s.ops[s.queue[k - 1]].pc.Sequenced())
    ensures StartOf(s, k) <= s.logSeqNum
  {
    if s.head > 0 {
      var last := s.queue[s.head - 1];
      assert PosOk(s, s.head - 1) && OpOk(s, last);
      if s.ops[last].pc.Sequenced() {
        StartMonotone(s, k, s.head);
      } else {
        StartMonotone(s, k, s.head - 1);
      }
    }
  }

  /** The batches tile the sequence numbers in the order of the queue, with no overlap and no gap but the 0 that
      AllocateSeqNum passes over. */
  lemma {:induction false} BatchesTile(s: State, p: Id)
    requires Reached(s) && p in s.ops && s.ops[p].pc.Sequenced()
    ensures var j := s.ops[p].index; j < |s.queue| && s.queue[j] == p && (j > 0 ==> s.queue[j - 1] in s.ops)
    ensures var j, op := s.ops[p].index, s.ops[p];
      op.seqNum == First(op.role, if j == 0 then s.origin else s.ops[s.queue[j - 1]].End())
  {
    ReachedInv(s);
    assert OpOk(s, p);
    var j := s.ops[p].index;
    if j > 0 { assert PosOk(s, j - 1); }
  }

  /** The WAL holds the Commit batches in the order of their sequence numbers. */
  lemma {:induction false} WALInSeqNumOrder(s: State, i: nat, k: nat)
    requires Reached(s) && i < k < |s.wal|
    ensures s.wal[i] in s.ops && s.wal[k] in s.ops && s.ops[s.wal[i]].End() <= s.ops[s.wal[k]].seqNum
  {
    hide Reached, SlotOk, PosOk, PcOk;
    ReachedInv(s);
    WALOrder(s, i, k);
    assert Logged(s, i) && Logged(s, k) && OpOk(s, s.wal[i]) && OpOk(s, s.wal[k]);
    StartMonotone(s, s.ops[s.wal[i]].index + 1, s.ops[s.wal[k]].index);
  }

  lemma {:induction false} WALIsComplete(s: State, p: Id)
    requires Reached(s) && p in s.ops
    ensures s.ops[p].role == Commit && s.ops[p].applied ==> p in s.wal
    ensures p in s.wal ==> s.ops[p].role == Commit && s.ops[p].pc.Sequenced()
  {
    ReachedInv(s);
    assert OpOk(s, p);
    if p in s.wal {
      var i :| 0 <= i < |s.wal| && s.wal[i] == p;
      assert Logged(s, i);
    }
  }

  lemma {:induction false} WALOrder(s: State, i: nat, k: nat)
    requires Inv(s) && i < k < |s.wal|
    ensures s.wal[i] in s.ops && s.wal[k] in s.ops && s.ops[s.wal[i]].index < s.ops[s.wal[k]].index
    decreases k
  {
    assert Logged(s, k);
    if i < k - 1 { WALOrder(s, i, k - 1); }
  }

  /** Commit and AllocateSeqNum return only when their batch is visible. */
  lemma {:induction false} ReturnsVisible(s: State, p: Id)
    requires Reached(s) && p in s.ops && s.ops[p].pc.Finished?
    ensures s.ops[p].applied && s.ops[p].End() <= s.visibleSeqNum
  {
    ReachedInv(s);
    assert OpOk(s, p);
  }

  /** AllocateSeqNum leaves its spin only when every record sequenced before it has been applied. */
  lemma {:induction false} SpinWaitsForEarlier(s: State, p: Id, j: nat)
    requires Reached(s) && p in s.ops && |s.slots| == SLOTS
    requires s.ops[p].pc.Preparing? && s.ops[p].pc.prep.SpinVisible? && !Blocked(s, p)
    requires j < s.ops[p].index
    ensures j < |s.queue| && s.queue[j] in s.ops && (s.ops[s.queue[j]].count > 0 ==> s.ops[s.queue[j]].applied)
  {
    hide Inv, Reached, Blocked, Step;
    ReachedInv(s);
    SpunPast(s, p);
    EarlierApplied(s, p, j);
  }

  /** The spin ends when the visible sequence number has reached the call's own. */
  lemma {:induction false} SpunPast(s: State, p: Id)
    requires Inv(s) && p in s.ops && s.ops[p].pc.Preparing? && s.ops[p].pc.prep.SpinVisible? && !Blocked(s, p)
    ensures s.ops[p].pc.Sequenced() && StartOf(s, s.ops[p].index) <= s.visibleSeqNum
  {
    assert OpOk(s, p);
  }

  lemma {:induction false} EarlierApplied(s: State, p: Id, j: nat)
    requires Inv(s) && p in s.ops && s.ops[p].pc.Sequenced() && j < s.ops[p].index
    requires StartOf(s, s.ops[p].index) <= s.visibleSeqNum
    ensures j < |s.queue| && s.queue[j] in s.ops && (s.ops[s.queue[j]].count > 0 ==> s.ops[s.queue[j]].applied)
  {
    assert OpOk(s, p) && PosOk(s, j) && OpOk(s, s.queue[j]);
    assert StartOf(s, j + 1) == s.ops[s.queue[j]].End();
    StartMonotone(s, j + 1, s.ops[p].index);
    if s.ops[s.queue[j]].count > 0 { AppliedBelow(s, s.queue[j]); }
  }

  /** The visible sequence number never decreases. */
  lemma {:induction false} VisibleNeverDecreases(s: State, a: Action)
    requires Reached(s) && |s.slots| == SLOTS
    ensures s.visibleSeqNum <= Do(s, a).visibleSeqNum && Reached(Do(s, a))
  {
    ReachedInv(s);
    if a.Take? && a.id in s.ops { StepKeeps(s, a.id); }
    var seqNum: nat, run :| s == Run(seqNum, run);
    assert (run + [a])[..|run|] == run;
    assert Do(s, a) == Run(seqNum, run + [a]);
  }

  // --- no deadlock -----------------------------------------------------------

  predicate Moves(s: State, q: Id)
    requires |s.slots| == SLOTS
  {
    q in s.ops && !Blocked(s, q)
  }

  lemma {:induction false} OldestMoves(s: State) returns (q: Id)
    requires Inv(s) && s.tail < s.head
    ensures Moves(s, q)
  {
    q := s.queue[s.tail];
    assert PosOk(s, s.tail) && OpOk(s, q);
    if Blocked(s, q) {
      if s.ops[q].applied {
        q :| Attempts(s, q);
      } else if s.tail > 0 {
        var k := VisibleIsBoundary(s);
        StartMonotone(s, k, s.tail);
        assert PosOk(s, s.tail - 1) && OpOk(s, s.queue[s.tail - 1]);
        q := s.carrier[s.tail - 1];
      } else {
        var k := VisibleIsBoundary(s);
        assert false;
      }
    }
  }

  lemma {:induction false} HolderMoves(s: State) returns (q: Id)
    requires Inv(s) && s.mu.Some?
    ensures Moves(s, q)
  {
    q := s.mu.value;
    assert OpOk(s, q);
    if Blocked(s, q) {
      if s.ops[q].pc.Enqueuing? {
        var i := s.head % SLOTS;
        NeverFull(s);
        assert SlotOk(s, i);
        var b := s.slots[i].value;
        assert OpOk(s, b);
        q := s.carrier[s.ops[b].index];
      } else {
        assert PosOk(s, s.ops[q].index);
        q := OldestMoves(s);
      }
    }
  }

  lemma {:induction false} WaiterMoves(s: State, p: Id) returns (q: Id)
    requires Inv(s) && PcIs(s, p, Wait) && !s.ops[p].done
    ensures Moves(s, q)
  {
    assert OpOk(s, p) && PosOk(s, s.ops[p].index);
    if s.ops[p].index < s.tail {
      q := s.carrier[s.ops[p].index];
    } else {
      q := OldestMoves(s);
    }
  }

  /** The pipeline never deadlocks: while some call has not returned, some goroutine can step. */
  lemma {:induction false} NoDeadlock(s: State, p: Id)
    requires Reached(s) && p in s.ops && !s.ops[p].pc.Finished?
    ensures |s.slots| == SLOTS && exists q :: Moves(s, q)
  {
    ReachedInv(s);
    assert OpOk(s, p);
    if s.mu.Some? {
      var q := HolderMoves(s);
    } else if Blocked(s, p) {
      if s.ops[p].pc.Wait? {
        var q := WaiterMoves(s, p);
      } else {
        assert s.sem != {};
        var x :| x in s.sem;
        assert OpOk(s, x);
        if Blocked(s, x) { var q := WaiterMoves(s, x); } else { assert Moves(s, x); }
      }
    } else {
      assert Moves(s, p);
    }
  }
}
