/** commit.go: every call returns. However the goroutines are scheduled, only finitely many steps can be taken, and
    when no more can be taken every call has returned. */
module CommitProgress {
  import opened Wrappers
  import opened CommitPipeline

  // --- sums over goroutines ------------------------------------------------------

  ghost function Sum(ids: set<Id>, f: Id -> nat): nat
    decreases |ids|
  {
    if ids == {} then 0
    else
      var x :| x in ids;
      f(x) + Sum(ids - {x}, f)
  }

  lemma {:induction false} SumTake(ids: set<Id>, f: Id -> nat, x: Id)
    requires x in ids
    ensures Sum(ids, f) == f(x) + Sum(ids - {x}, f)
    decreases |ids|
  {
    var y :| y in ids && Sum(ids, f) == f(y) + Sum(ids - {y}, f);
    if y != x {
      SumTake(ids - {y}, f, x);
      SumTake(ids - {x}, f, y);
      assert ids - {y} - {x} == ids - {x} - {y};
    }
  }

  lemma {:induction false} SumSame(ids: set<Id>, f: Id -> nat, g: Id -> nat)
    requires forall x :: x in ids ==> f(x) == g(x)
    ensures Sum(ids, f) == Sum(ids, g)
    decreases |ids|
  {
    if ids != {} {
      var x :| x in ids;
      SumTake(ids, f, x);
      SumTake(ids, g, x);
      SumSame(ids - {x}, f, g);
    }
  }

  lemma {:induction false} SumAtMost(ids: set<Id>, f: Id -> nat, c: nat)
    requires forall x :: x in ids ==> f(x) <= c
    ensures Sum(ids, f) <= c * |ids|
    decreases |ids|
  {
    if ids != {} {
      var x :| x in ids;
      SumTake(ids, f, x);
      SumAtMost(ids - {x}, f, c);
      assert c * |ids| == c * (|ids| - 1) + c;
    }
  }

  // --- what is left to do ----------------------------------------------------------

  const MAX_RANK: nat := 99

  /** How far a goroutine is from returning, as long as nobody changes the head, the tail or the visible sequence
      number. One whose compare-and-swap is going to fail has to read again. */
  function Rank(s: State, p: Id): (r: nat)
    ensures r <= MAX_RANK
  {
    if p !in s.ops then 0
    else match s.ops[p].pc
      case WantSem => 99
      case WantLock => 98
      case Enqueuing(pc) =>
        (match pc case LoadHead => 97 case SpinSlot(_) => 96 case StoreSlot(_) => 95 case AddHead => 94)
      case Preparing(pc) =>
        (match pc
         case AddLogSeqNum => 93
         case AddOneMore => 92
         case SetSeqNum(_) => 91
         case WriteWAL => 90
         case SpinVisible(_) => 90)
      case Unlock => 89
      case Apply => 88
      case MarkApplied => 87
      case Publishing(_, pc) =>
        (match pc
         case NilSlot(_) => 60
         case CheckApplied => 59
         case LoadVisible => 50
         case CasVisible(cur) => if cur == s.visibleSeqNum then 49 else 51
         case CommitDone => 40)
      case Dequeuing(pc) =>
        (match pc
         case LoadHeadTail => 20
         case LoadSlot(head, tail) => if head == s.head && tail == s.tail then 19 else 23
         case LoadApplied(head, tail, _) => if head == s.head && tail == s.tail then 18 else 22
         case CasTail(head, tail, _) => if head == s.head && tail == s.tail then 17 else 21)
      case Wait => 3
      case Leave => 2
      case Finished => 0
      case Panic => 0
  }

  /** The goroutine has yet to see its batch visible. */
  function Unpublished(s: State, p: Id): nat {
    if p in s.ops && s.ops[p].pc.Publishing? && !s.ops[p].pc.pub.CommitDone? then 1 else 0
  }

  /** How often the head or the tail can still change. */
  function Turns(s: State): int { 2 * |s.ops.Keys| - s.head - s.tail }

  /** How often the visible sequence number can still change. */
  ghost function Publications(s: State): int {
    |s.ops.Keys| - s.tail + Sum(s.ops.Keys, p => Unpublished(s, p))
  }

  ghost function Ranks(s: State): nat {
    Sum(s.ops.Keys, p => Rank(s, p))
  }

  ghost predicate Lowers(s: State, t: State) {
    || Turns(t) < Turns(s)
    || (Turns(t) == Turns(s) && Publications(t) < Publications(s))
    || (Turns(t) == Turns(s) && Publications(t) == Publications(s) && Ranks(t) < Ranks(s))
  }

  /** The others go on where they were. */
  ghost predicate OthersStay(s: State, t: State, p: Id) {
    && p in s.ops && t.ops.Keys == s.ops.Keys
    && forall q {:trigger t.ops[q]} :: q in s.ops && q != p ==> t.ops[q].pc == s.ops[q].pc
  }

  lemma {:induction false} PublicationsBut(s: State, t: State, p: Id)
    requires OthersStay(s, t, p) && t.tail == s.tail
    ensures Publications(t) - Publications(s) == Unpublished(t, p) - Unpublished(s, p)
  {
    var ids, f, g := s.ops.Keys, (q: Id) => Unpublished(s, q), (q: Id) => Unpublished(t, q);
    SumTake(ids, f, p);
    SumTake(ids, g, p);
    SumSame(ids - {p}, f, g);
  }

  lemma {:induction false} RanksBut(s: State, t: State, p: Id)
    requires OthersStay(s, t, p) && t.head == s.head && t.tail == s.tail && t.visibleSeqNum == s.visibleSeqNum
    ensures Ranks(t) - Ranks(s) == Rank(t, p) - Rank(s, p)
  {
    var ids, f, g := s.ops.Keys, (q: Id) => Rank(s, q), (q: Id) => Rank(t, q);
    SumTake(ids, f, p);
    SumTake(ids, g, p);
    SumSame(ids - {p}, f, g);
  }

  /** A step changes the head or the tail, publishes, or takes its goroutine further. */
  ghost predicate GoesOn(s: State, t: State, p: Id) {
    || t.head + t.tail > s.head + s.tail
    || (t.head == s.head && t.tail == s.tail && Unpublished(t, p) < Unpublished(s, p))
    || (&& t.head == s.head && t.tail == s.tail && t.visibleSeqNum == s.visibleSeqNum
        && Unpublished(t, p) == Unpublished(s, p) && Rank(t, p) < Rank(s, p))
  }

  lemma {:induction false} GoesOnLowers(s: State, t: State, p: Id)
    requires OthersStay(s, t, p) && GoesOn(s, t, p)
    ensures Lowers(s, t)
  {
    hide Rank, Unpublished;
    if t.tail == s.tail && t.head == s.head {
      PublicationsBut(s, t, p);
      if t.visibleSeqNum == s.visibleSeqNum { RanksBut(s, t, p); }
    }
  }

  lemma {:induction false} PublishGoesOn(s: State, p: Id, b: Id, pc: PublishPc)
    requires |s.slots| == SLOTS && PcIs(s, p, Publishing(b, pc)) && b in s.ops && s.ops[b].applied
    ensures OthersStay(s, Publish(s, p, b, pc), p) && GoesOn(s, Publish(s, p, b, pc), p)
  {
  }

  lemma {:induction false} DequeueGoesOn(s: State, p: Id, pc: DequeuePc)
    requires |s.slots| == SLOTS && PcIs(s, p, Dequeuing(pc))
    ensures OthersStay(s, Dequeue(s, p, pc), p) && GoesOn(s, Dequeue(s, p, pc), p)
  {
  }

  lemma {:induction false} PrepareGoesOn(s: State, p: Id, pc: PreparePc)
    requires PcIs(s, p, Preparing(pc))
    ensures OthersStay(s, Prepare(s, p, pc), p) && GoesOn(s, Prepare(s, p, pc), p)
  {
  }

  lemma {:induction false} EnqueueGoesOn(s: State, p: Id, pc: EnqueuePc)
    requires |s.slots| == SLOTS && PcIs(s, p, Enqueuing(pc))
    ensures OthersStay(s, Enqueue(s, p, pc), p) && GoesOn(s, Enqueue(s, p, pc), p)
  {
  }

  lemma {:induction false} EnterGoesOn(s: State, p: Id, pc: Pc)
    requires |s.slots| == SLOTS && PcIs(s, p, pc) && Plain(pc) && !Blocked(s, p)
    ensures OthersStay(s, Enter(s, p, pc), p) && GoesOn(s, Enter(s, p, pc), p)
  {
  }

  /** Every step that is not blocked lowers what is left to do. */
  lemma {:induction false} StepLowers(s: State, p: Id)
    requires Inv(s) && p in s.ops && !Blocked(s, p)
    ensures Lowers(s, Step(s, p)) && Step(s, p).ops.Keys == s.ops.Keys
  {
    assert OpOk(s, p);
    var pc := s.ops[p].pc;
    if pc.Publishing? { PublishingIs(s, p, pc.batch, pc.pub); }
    hide Inv, OpOk, GoesOn, Lowers, Blocked, Enqueue, Prepare, Dequeue, Publish, Enter;
    SlotsAre(s);
    if pc.Enqueuing? {
      EnqueueGoesOn(s, p, pc.enq);
    } else if pc.Preparing? {
      PrepareGoesOn(s, p, pc.prep);
    } else if pc.Dequeuing? {
      DequeueGoesOn(s, p, pc.deq);
    } else if pc.Publishing? {
      PublishGoesOn(s, p, pc.batch, pc.pub);
    } else {
      EnterGoesOn(s, p, pc);
    }
    GoesOnLowers(s, Step(s, p), p);
  }

  lemma {:induction false} SlotsAre(s: State)
    requires Inv(s)
    ensures |s.slots| == SLOTS
  {
  }

  // --- a bound on the steps that are left ----------------------------------------------

  /** The batches at the first `n` positions of the queue. */
  ghost function Enqueued(s: State, n: nat): set<Id>
    requires n <= |s.queue|
  {
    if n == 0 then {} else Enqueued(s, n - 1) + {s.queue[n - 1]}
  }

  lemma {:induction false} EnqueuedOnce(s: State, n: nat)
    requires Inv(s) && n <= |s.queue|
    ensures |Enqueued(s, n)| == n && Enqueued(s, n) <= s.ops.Keys
    ensures forall b :: b in Enqueued(s, n) ==> s.ops[b].index < n
  {
    if n > 0 {
      EnqueuedOnce(s, n - 1);
      assert PosOk(s, n - 1);
    }
  }

  lemma {:induction false} Bounds(s: State)
    requires Inv(s)
    ensures Turns(s) >= 0 && 0 <= Publications(s) <= 2 * |s.ops.Keys| && Ranks(s) <= MAX_RANK * |s.ops.Keys|
  {
    EnqueuedOnce(s, |s.queue|);
    SubsetSize(Enqueued(s, |s.queue|), s.ops.Keys);
    SumAtMost(s.ops.Keys, p => Unpublished(s, p), 1);
    SumAtMost(s.ops.Keys, p => Rank(s, p), MAX_RANK);
  }

  function Weigh(n: nat, turns: nat, publications: nat, ranks: nat): nat {
    (turns * (2 * n + 1) + publications) * (MAX_RANK * n + 1) + ranks
  }

  lemma {:induction false} TimesLess(a: nat, b: nat, c: nat)
    requires a < b
    ensures a * c + c <= b * c
    decreases b
  {
    if a < b - 1 { TimesLess(a, b - 1, c); }
    assert b * c == (b - 1) * c + c;
  }

  lemma {:induction false} WeighLess(
      n: nat, turns: nat, publications: nat, ranks: nat, turns': nat, publications': nat, ranks': nat)
    requires publications' <= 2 * n && ranks' <= MAX_RANK * n
    requires || turns' < turns
             || (turns' == turns && publications' < publications)
             || (turns' == turns && publications' == publications && ranks' < ranks)
    ensures Weigh(n, turns', publications', ranks') < Weigh(n, turns, publications, ranks)
  {
    var v, w := 2 * n + 1, MAX_RANK * n + 1;
    var x', x := turns' * v + publications', turns * v + publications;
    if turns' < turns { TimesLess(turns', turns, v); }
    assert x' < x || (x' == x && ranks' < ranks);
    if x' < x { TimesLess(x', x, w); }
  }

  /** No more steps than this can be taken before all calls have returned. */
  ghost function Left(s: State): nat
    requires Inv(s)
  {
    Bounds(s);
    Weigh(|s.ops.Keys|, Turns(s), Publications(s), Ranks(s))
  }

  lemma {:induction false} StepLeavesLess(s: State, p: Id)
    requires Inv(s) && p in s.ops && !Blocked(s, p)
    ensures Inv(Step(s, p)) && Left(Step(s, p)) < Left(s)
  {
    hide Inv, Blocked, Step, Weigh, Turns, Publications, Ranks;
    SlotsAre(s);
    var t := Step(s, p);
    CommitPipeline.StepKeeps(s, p);
    StepLowers(s, p);
    Bounds(s);
    Bounds(t);
    WeighLess(|s.ops.Keys|, Turns(s), Publications(s), Ranks(s), Turns(t), Publications(t), Ranks(t));
  }

  // --- every schedule ---------------------------------------------------------------------

  /** The steps of the goroutines `ids`, one after the other, each of which can step when its turn comes. */
  ghost predicate IsSchedule(s: State, ids: seq<Id>)
    decreases |ids|
  {
    ids == [] || (|s.slots| == SLOTS && Moves(s, ids[0]) && IsSchedule(Step(s, ids[0]), ids[1..]))
  }

  ghost function After(s: State, ids: seq<Id>): State
    requires IsSchedule(s, ids)
    decreases |ids|
  {
    if ids == [] then s else After(Step(s, ids[0]), ids[1..])
  }

  lemma {:induction false} StepReached(s: State, p: Id)
    requires Reached(s) && p in s.ops && |s.slots| == SLOTS
    ensures Reached(Step(s, p))
  {
    VisibleNeverDecreases(s, Take(p));
  }

  /** A step that is not blocked does something. */
  lemma {:induction false} StepsDoSomething(s: State, p: Id)
    requires Reached(s) && p in s.ops
    ensures |s.slots| == SLOTS && (!Blocked(s, p) ==> Step(s, p) != s)
  {
    hide Blocked, Step, Inv;
    ReachedInv(s);
    SlotsAre(s);
    if !Blocked(s, p) { StepLeavesLess(s, p); }
  }

  /** However the goroutines are scheduled, only so many steps can be taken. */
  lemma {:induction false} SchedulesAreBounded(s: State, ids: seq<Id>)
    requires Reached(s) && IsSchedule(s, ids)
    ensures Inv(s) && Reached(After(s, ids)) && Inv(After(s, ids)) && |ids| + Left(After(s, ids)) <= Left(s)
    ensures After(s, ids).ops.Keys == s.ops.Keys
    decreases |ids|
  {
    hide Blocked, Step, Inv, Left;
    ReachedInv(s);
    if ids != [] {
      StepReached(s, ids[0]);
      StepLeavesLess(s, ids[0]);
      StepKeepsCalls(s, ids[0]);
      SchedulesAreBounded(Step(s, ids[0]), ids[1..]);
    }
  }

  lemma {:induction false} StepKeepsCalls(s: State, p: Id)
    requires Inv(s) && p in s.ops && !Blocked(s, p)
    ensures Step(s, p).ops.Keys == s.ops.Keys
  {
    StepLowers(s, p);
  }

  /** The call has returned, its batch applied and visible. */
  predicate Returned(s: State, p: Id) {
    p in s.ops && s.ops[p].pc.Finished? && s.ops[p].applied && s.ops[p].End() <= s.visibleSeqNum
  }

  /** When no goroutine can step any more, every call has returned. */
  lemma {:induction false} StuckHaveReturned(s: State)
    requires Reached(s) && |s.slots| == SLOTS && forall q :: !Moves(s, q)
    ensures forall p :: p in s.ops ==> Returned(s, p)
  {
    hide Reached, Blocked;
    forall p | p in s.ops ensures Returned(s, p) {
      if !s.ops[p].pc.Finished? { NoDeadlock(s, p); }
      ReturnsVisible(s, p);
    }
  }

  /** From every state reached some schedule leads to one in which every call has returned. */
  lemma {:induction false} CallsReturn(s: State) returns (ids: seq<Id>)
    requires Reached(s)
    ensures IsSchedule(s, ids) && Reached(After(s, ids))
    ensures forall p :: p in s.ops ==> Returned(After(s, ids), p)
  {
    ReachedInv(s);
    ids := CallsReturnFrom(s);
  }

  lemma {:induction false} CallsReturnFrom(s: State) returns (ids: seq<Id>)
    requires Reached(s) && Inv(s)
    ensures IsSchedule(s, ids) && Reached(After(s, ids))
    ensures forall p :: p in s.ops ==> Returned(After(s, ids), p)
    decreases Left(s)
  {
    hide Blocked, Step, Inv, Left, Reached;
    SlotsAre(s);
    if exists q :: Moves(s, q) {
      var q :| Moves(s, q);
      StepReached(s, q);
      StepLeavesLess(s, q);
      StepKeepsCalls(s, q);
      var rest := CallsReturnFrom(Step(s, q));
      ids := [q] + rest;
      assert ids[1..] == rest;
    } else {
      StuckHaveReturned(s);
      ids := [];
    }
  }
}
