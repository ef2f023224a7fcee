/**
  The wakeups of `NoBlockRead(BlockWrite(Ring))`, one producing and one consuming
  thread, on top of the ring's statements.

  The consumer takes no mutex, neither for its get nor for its notice, so both can
  fall between the producer's size test and its wait.  `LockFree` lets a parked
  producer come back at any moment; here it needs a notice, the end of a timed wait,
  or a wakeup for no reason.
 */
module LostNotice {
  import opened Bytes
  import opened Fifo
  import opened Runs
  import opened LockFreeProgress
  import Ring = LockFree

  /** Where the consuming thread is in its loop. */
  datatype Loop =
    | Looking             // if size()
    | Calling             // about to call get
    | Taking              // inside the ring's get
    | Owing(more: bool)   // notify_one; then get again if something was got

  datatype State = State(
    q: Ring.State,
    falling: bool,   // the producer found no room and is on its way into the wait, mutex held
    asleep: bool,    // it sleeps, and holds the mutex no more
    loop: Loop)

  datatype Action =
    | Enter(item: seq<byte>)
    | PutStep
    | FallAsleep
    | Reenter
    | Look
    | CallGet
    | GetStep
    | Notify
    | Wake   // the wait ends by itself: by time if it is timed, else for no reason

  function Init(c: Ring.Config): State {
    State(Ring.Init(c), false, false, Looking)
  }

  function Next(c: Ring.Config, s: State, a: Action): Option<State> {
    match a
    case Enter(item) => With(s, Ring.Next(c, s.q, Ring.Enter(0, item)))
    case PutStep =>
      (match Ring.Next(c, s.q, Ring.PutStep)
       case None => None
       case Some(q) => Some(s.(q := q, falling := 0 in q.parked)))
    case FallAsleep => if s.falling then Some(s.(falling := false, asleep := true)) else None
    case Reenter => if s.falling || s.asleep then None else With(s, Ring.Next(c, s.q, Ring.Reenter(0)))
    case Look => if s.loop == Looking then Some(s.(loop := if s.q.size > 0 then Calling else Looking)) else None
    case CallGet =>
      if s.loop == Calling then With(s.(loop := Taking), Ring.Next(c, s.q, Ring.Call(Get(MAX_U16)))) else None
    case GetStep =>
      (match Ring.Next(c, s.q, Ring.GetStep)
       case None => None
       case Some(q) =>
         if |q.log| == |s.q.log| then Some(s.(q := q))
         else Some(s.(q := q, loop := Owing(q.log[|q.log| - 1].reply.ret > 0))))
    case Notify =>
      if s.loop.Owing? then Some(s.(asleep := false, loop := if s.loop.more then Calling else Looking)) else None
    case Wake => if s.asleep then Some(s.(asleep := false)) else None
  }

  function With(s: State, q: Option<Ring.State>): Option<State> {
    match q
    case None => None
    case Some(q) => Some(s.(q := q))
  }

  ghost function Sys(c: Ring.Config): System<State, Action> {
    System(Init(c), (s, a) => Next(c, s, a))
  }

  /** The producer sleeps, and nothing that is bound to happen changes anything any more. */
  ghost predicate Stuck(c: Ring.Config, s: State) {
    s.asleep && forall a :: Next(c, s, a).Some? && (a.Wake? ==> c.timed) ==> Next(c, s, a) == Some(s)
  }

  // ----------------------------------------------------------- invariants

  /** Where the two threads can be at once. */
  ghost predicate Placed(c: Ring.Config, s: State) {
    && (0 in s.q.parked ==> c.reported <= c.cells && s.q.producer == Ring.Free)
    && (s.falling || s.asleep ==> 0 in s.q.parked)
    && !(s.falling && s.asleep)
    && (s.loop.Taking? <==> s.q.consumer.Inside?)
    && (s.q.consumer.Inside? ==> s.q.consumer.op == Get(MAX_U16))
  }

  ghost predicate Inv(c: Ring.Config, s: State) {
    Reachable(Ring.Sys(c), s.q) && Placed(c, s)
  }

  /** Every step is a statement of the ring or none. */
  lemma RingStep(c: Ring.Config, q0: Ring.State, s: State, a: Action)
    requires Reachable(LockFreeProgress.From(c, q0), s.q) && Next(c, s, a).Some?
    ensures Reachable(LockFreeProgress.From(c, q0), Next(c, s, a).value.q)
  {
    hide Ring.Next;
    var rs := LockFreeProgress.From(c, q0);
    match a
    case Enter(item) => var q := Take(rs, s.q, Ring.Enter(0, item));
    case PutStep => var q := Take(rs, s.q, Ring.PutStep);
    case Reenter => var q := Take(rs, s.q, Ring.Reenter(0));
    case CallGet => var q := Take(rs, s.q, Ring.Call(Get(MAX_U16)));
    case GetStep => var q := Take(rs, s.q, Ring.GetStep);
    case _ =>
  }

  lemma PlacedPut(c: Ring.Config, s: State)
    requires Ring.Inv(c, s.q) && Placed(c, s) && Next(c, s, PutStep).Some?
    ensures Placed(c, Next(c, s, PutStep).value)
  {
    hide Ring.CellsOk, Ring.IndexesOk, Ring.LogOk, Ring.ConsumerOk, Ring.AfterGetStep;
  }

  lemma PlacedGet(c: Ring.Config, s: State)
    requires Placed(c, s) && Next(c, s, GetStep).Some?
    ensures Placed(c, Next(c, s, GetStep).value)
  {
    hide Ring.AfterPutStep;
  }

  lemma PlacedStep(c: Ring.Config, s: State, a: Action)
    requires Ring.Inv(c, s.q) && Placed(c, s) && Next(c, s, a).Some?
    ensures Placed(c, Next(c, s, a).value)
  {
    hide Ring.Inv, Ring.AfterPutStep, Ring.AfterGetStep;
    match a
    case PutStep => PlacedPut(c, s);
    case GetStep => PlacedGet(c, s);
    case _ =>
  }

  lemma InvStep(c: Ring.Config, s: State, a: Action)
    requires Inv(c, s) && Next(c, s, a).Some?
    ensures Inv(c, Next(c, s, a).value)
  {
    hide Next, Placed, Ring.Inv;
    RingStep(c, Ring.Init(c), s, a);
    Ring.ReachableInv(c, s.q);
    PlacedStep(c, s, a);
  }

  lemma ReachableInv(c: Ring.Config, s: State)
    requires Reachable(Sys(c), s)
    ensures Inv(c, s)
  {
    ReachStart(Ring.Sys(c));
    forall s, a | Inv(c, s) && Next(c, s, a).Some? ensures Inv(c, Next(c, s, a).value) {
      hide Next, Inv;
      InvStep(c, s, a);
    }
    Holds(Sys(c), s => Inv(c, s), s);
  }

  function ConsumerAction(s: State): Action {
    match s.loop
    case Looking => Look
    case Calling => CallGet
    case Taking => GetStep
    case Owing(_) => Notify
  }

  /** Only the wait holds anybody up: the producer can begin any put, and go on with it unless asleep. */
  lemma BothGoOn(c: Ring.Config, s: State, item: seq<byte>)
    requires Reachable(Sys(c), s)
    ensures PutOf(s.q, 0) == None && s.q.producer == Ring.Free ==>
      Next(c, s, Enter(item)).Some? && PutOf(Next(c, s, Enter(item)).value.q, 0) == Some(item)
    ensures s.q.producer.Holding? ==> Next(c, s, PutStep).Some?
    ensures 0 in s.q.parked ==>
      if s.falling then Next(c, s, FallAsleep) == Some(s.(falling := false, asleep := true))
      else if s.asleep then Next(c, s, Wake) == Some(s.(asleep := false))
      else Next(c, s, Reenter).Some?
    ensures Next(c, s, ConsumerAction(s)).Some?
  {
    hide Ring.Inv, Ring.AfterPutStep, Ring.AfterGetStep;
    ReachableInv(c, s);
    Ring.NeverStuckInside(c, s.q);
  }

  // ------------------------------------------------------ the run to loss

  /** `n` items are in the queue and no call is under way. */
  ghost predicate Filled(c: Ring.Config, s: State, n: nat) {
    Reachable(Sys(c), s) && s == State(s.q, false, false, Looking)
    && s.q.producer == Ring.Free && s.q.parked == map[] && s.q.size == n
  }

  ghost predicate Filling(c: Ring.Config, s: State, n: nat) {
    var p := s.q.producer;
    && n < c.cells
    && Reachable(Sys(c), s) && s == State(s.q, false, false, Looking) && s.q.parked == map[]
    && p.Holding? && p.stage != Ring.Guard
    && s.q.size == if p.stage == Ring.Leave then n + 1 else n
  }

  lemma {:induction false} FinishPut(c: Ring.Config, s: State, n: nat) returns (s': State)
    requires Filling(c, s, n)
    ensures Filled(c, s', n + 1)
    decreases Ring.StageRank(s.q.producer.stage)
  {
    hide Ring.CellsOk, Ring.IndexesOk, Ring.LogOk, Ring.AfterGetStep;
    ReachableInv(c, s);
    Ring.ReachableInv(c, s.q);
    Ring.NeverStuckInside(c, s.q);
    s' := Take(Sys(c), s, PutStep);
    if s.q.producer.stage != Ring.Leave {
      s' := FinishPut(c, s', n);
    }
  }

  lemma {:induction false} Fill(c: Ring.Config, n: nat) returns (s: State)
    requires n <= c.reported <= c.cells
    ensures Filled(c, s, n)
    decreases n
  {
    hide Ring.AfterGetStep;
    if n == 0 {
      s := Init(c);
      ReachStart(Sys(c));
    } else {
      s := Fill(c, n - 1);
      s := Take(Sys(c), s, Enter([]));
      s := Take(Sys(c), s, PutStep);
      s := FinishPut(c, s, n - 1);
    }
  }

  /** The producer has found no room and not yet gone to sleep. */
  ghost predicate Falling(c: Ring.Config, s: State) {
    Reachable(Sys(c), s) && s.falling && !s.asleep
  }

  /** What the consumer still has to do until the queue is empty and it looks in vain. */
  function LoopRank(s: State): nat {
    match s.loop
    case Looking => if s.q.size > 0 then 10 else 0
    case Calling => 9
    case Taking => if s.q.consumer.Inside? then 3 + Ring.GetRank(s.q.consumer.stage) else 0
    case Owing(more) => if s.q.size > 0 || more then 11 else 1
  }

  /** The queue is empty and the consumer looks in vain. */
  predicate Drained(s: State) {
    s.loop == Looking && s.q.size == 0
  }

  lemma GetMoves(c: Ring.Config, s: State)
    requires Ring.Inv(c, s.q) && s.loop.Taking? && s.q.consumer.Inside? && s.q.consumer.op.Get?
    requires Ring.Next(c, s.q, Ring.GetStep).Some?
    ensures Next(c, s, GetStep).Some?
    ensures var s' := Next(c, s, GetStep).value;
      && s'.loop != Looking
      && (s'.q.size < s.q.size || (s'.q.size == s.q.size && LoopRank(s') < LoopRank(s)))
  {
    hide Ring.CellsOk, Ring.IndexesOk, Ring.LogOk, Ring.AfterPutStep;
  }

  /** Every statement of the consumer brings it nearer; the last of them is a notice. */
  lemma ConsumerMoves(c: Ring.Config, s: State)
    requires Inv(c, s) && !Drained(s)
    ensures Next(c, s, ConsumerAction(s)).Some?
    ensures var s' := Next(c, s, ConsumerAction(s)).value;
      && s'.q.producer == s.q.producer && s'.q.parked == s.q.parked && s'.falling == s.falling
      && (s'.asleep ==> s.asleep && !Drained(s'))
      && (s'.q.size < s.q.size || (s'.q.size == s.q.size && LoopRank(s') < LoopRank(s)))
  {
    hide Ring.Inv, Ring.AfterPutStep, Ring.AfterGetStep;
    Ring.ReachableInv(c, s.q);
    Ring.NeverStuckInside(c, s.q);
    if s.loop.Taking? {
      GetMoves(c, s);
      ProducerApart(c, s.q);
    }
  }

  lemma {:induction false} Drain(c: Ring.Config, s: State) returns (s': State)
    requires Falling(c, s)
    ensures Falling(c, s') && Drained(s')
    decreases s.q.size, LoopRank(s)
  {
    hide Next, LoopRank, Inv;
    if Drained(s) {
      s' := s;
    } else {
      ReachableInv(c, s);
      ConsumerMoves(c, s);
      s' := Take(Sys(c), s, ConsumerAction(s));
      s' := Drain(c, s');
    }
  }

  lemma Lose(c: Ring.Config) returns (s: State)
    requires c.reported <= c.cells && !c.timed
    ensures Reachable(Sys(c), s) && Stuck(c, s) && s.q.size == 0
  {
    hide Ring.AfterGetStep;
    s := Fill(c, c.reported);
    s := Take(Sys(c), s, Enter([]));
    s := Take(Sys(c), s, PutStep);
    s := Drain(c, s);
    s := Take(Sys(c), s, FallAsleep);
    ReachableInv(c, s);
  }

  // ------------------------------------------------------------- theorems

  /** What a producer stuck in its wait sleeps beside is an empty queue, whatever room is reported. */
  lemma StuckBesideEmpty(c: Ring.Config, s: State)
    requires Reachable(Sys(c), s) && Stuck(c, s)
    ensures s.q.size == 0 && s.q.queue == [] && s.loop == Looking && !c.timed && c.reported <= c.cells
  {
    hide Ring.CellsOk, Ring.IndexesOk, Ring.LogOk;
    ReachableInv(c, s);
    Ring.ReachableInv(c, s.q);
    Ring.NeverStuckInside(c, s.q);
    assert Next(c, s, ConsumerAction(s)).Some?;
    assert Next(c, s, Wake).Some?;
  }

  /**
    A put can sleep for good beside an empty queue if and only if it waits without a
    time limit and no more room is reported than there are cells.  An answer other
    than 0 from `capacity()` is no remedy: then it is the notice that is lost.
   */
  lemma StuckIff(c: Ring.Config)
    ensures (exists s :: Reachable(Sys(c), s) && Stuck(c, s)) <==> !c.timed && c.reported <= c.cells
    ensures (exists s :: Reachable(Sys(c), s) && Stuck(c, s) && s.q.size < c.reported) <==>
      !c.timed && 0 < c.reported <= c.cells
  {
    hide Stuck, Next;
    if !c.timed && c.reported <= c.cells {
      var s := Lose(c);
    }
    forall s | Reachable(Sys(c), s) && Stuck(c, s) ensures !c.timed && c.reported <= c.cells {
      StuckBesideEmpty(c, s);
    }
  }

  // --------------------------------------------------- the notice that comes

  /** The runs from `s` on in which no wait ends by itself. */
  ghost function Unprompted(c: Ring.Config, s: State): System<State, Action> {
    System(s, (x, a: Action) => if a.Wake? then None else Next(c, x, a))
  }

  lemma UnpromptedInv(c: Ring.Config, s: State, t: State)
    requires Reachable(Sys(c), s) && Reachable(Unprompted(c, s), t)
    ensures Inv(c, t)
  {
    ReachableInv(c, s);
    forall x, a | Inv(c, x) && Next(c, x, a).Some? ensures Inv(c, Next(c, x, a).value) {
      hide Next, Inv;
      InvStep(c, x, a);
    }
    Holds(Unprompted(c, s), x => Inv(c, x), t);
  }

  ghost predicate Draining(c: Ring.Config, s: State, t: State) {
    Reachable(Unprompted(c, s), t) && 0 in t.q.parked && !t.falling && (t.asleep ==> !Drained(t))
  }

  /** The consumer's last get is followed by the notice that wakes the producer. */
  lemma {:induction false} DrainAndWake(c: Ring.Config, s: State, t: State) returns (u: State)
    requires Reachable(Sys(c), s) && Draining(c, s, t)
    ensures Draining(c, s, u) && Drained(u) && !u.asleep
    decreases t.q.size, LoopRank(t)
  {
    hide Next, LoopRank, Inv, Drained;
    if Drained(t) {
      u := t;
    } else {
      UnpromptedInv(c, s, t);
      ConsumerMoves(c, t);
      u := Take(Unprompted(c, s), t, ConsumerAction(t));
      u := DrainAndWake(c, s, u);
    }
  }

  lemma {:induction false} PutAnswered(c: Ring.Config, s: State, t: State) returns (u: State)
    requires Reachable(Sys(c), s) && Reachable(Unprompted(c, s), t)
    requires t.q.producer.Holding? && t.q.producer.t == 0 && t.q.producer.stage != Ring.Guard
    ensures Reachable(Unprompted(c, s), u) && PutOf(u.q, 0) == None
    decreases Ring.StageRank(t.q.producer.stage)
  {
    hide Ring.CellsOk, Ring.IndexesOk, Ring.LogOk, Ring.AfterGetStep;
    UnpromptedInv(c, s, t);
    if t.q.producer.stage == Ring.Leave {
      u := t;
      HolderIsUp(c, t.q);
    } else {
      Ring.NeverStuckInside(c, t.q);
      u := Take(Unprompted(c, s), t, PutStep);
      u := PutAnswered(c, s, u);
    }
  }

  lemma WokenPutReturns(c: Ring.Config, s: State, t: State) returns (u: State)
    requires Reachable(Sys(c), s) && Draining(c, s, t) && Drained(t) && !t.asleep
    requires c.timed || c.reported > 0
    ensures Reachable(Unprompted(c, s), u) && PutOf(u.q, 0) == None
  {
    hide Ring.AfterGetStep;
    UnpromptedInv(c, s, t);
    u := Take(Unprompted(c, s), t, Reenter);
    u := Take(Unprompted(c, s), u, PutStep);
    u := PutAnswered(c, s, u);
  }

  /** With the consumer back at its size test and nothing queued, only the end of the wait itself can help. */
  lemma SleepsOn(c: Ring.Config, s: State, t: State)
    requires Reachable(Sys(c), s) && s.asleep && Drained(s) && Reachable(Unprompted(c, s), t)
    ensures t == s
  {
    ReachableInv(c, s);
    forall x, a: Action | x == s && !a.Wake? && Next(c, x, a).Some? ensures Next(c, x, a).value == s {
      hide Ring.AfterPutStep, Ring.AfterGetStep;
    }
    Holds(Unprompted(c, s), x => x == s, t);
  }

  lemma RingRun(c: Ring.Config, s: State, t: State)
    requires Reachable(Unprompted(c, s), t)
    ensures Reachable(LockFreeProgress.From(c, s.q), t.q)
  {
    var q0 := s.q;
    ReachStart(LockFreeProgress.From(c, q0));
    forall x: State, a | Reachable(LockFreeProgress.From(c, q0), x.q) && Next(c, x, a).Some?
      ensures Reachable(LockFreeProgress.From(c, q0), Next(c, x, a).value.q)
    {
      hide Next;
      RingStep(c, q0, x, a);
    }
    Holds(Unprompted(c, s), (x: State) => Reachable(LockFreeProgress.From(c, q0), x.q), t);
  }

  /**
    Exactly when a sleeping producer is woken by a notice, and when its put then
    returns: the notice comes unless the consumer is back at its size test beside an
    empty queue; the put returns if besides some room is reported, or its wait has a
    time limit, so that it waits once only.
   */
  lemma NoticeComesIff(c: Ring.Config, s: State)
    requires Reachable(Sys(c), s) && s.asleep
    ensures (exists t :: Reachable(Unprompted(c, s), t) && !t.asleep) <==> !Drained(s)
    ensures (exists t :: Reachable(Unprompted(c, s), t) && PutOf(t.q, 0) == None) <==>
      !Drained(s) && (c.timed || c.reported > 0)
  {
    hide Next, PutOf, Drained, Ring.Inv;
    ReachableInv(c, s);
    SleeperWaits(s);
    if Drained(s) {
      forall t | Reachable(Unprompted(c, s), t) ensures t == s {
        SleepsOn(c, s, t);
      }
    } else {
      ReachStart(Unprompted(c, s));
      var t := DrainAndWake(c, s, s);
      if c.timed || c.reported > 0 {
        t := WokenPutReturns(c, s, t);
      } else {
        forall t | Reachable(Unprompted(c, s), t) ensures PutOf(t.q, 0).Some? {
          RingRun(c, s, t);
          NeverReturns(c, s.q, 0, t.q);
        }
      }
    }
  }

  lemma SleeperWaits(s: State)
    ensures 0 in s.q.parked ==> PutOf(s.q, 0).Some?
  {
  }
}
