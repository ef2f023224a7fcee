/** Calls of the lock-free stack from beginning to end: what is called is what is answered, and when a put returns. */
module LockFreeProgress {
  import opened Bytes
  import opened Fifo
  import opened Runs
  import opened LockFree

  // --------------------------------------------------- from call to answer

  /** What thread `t` has called put with and not been answered. */
  function PutOf(s: State, t: nat): Option<seq<byte>> {
    if s.producer.Holding? && s.producer.t == t && s.producer.stage != Leave then Some(s.producer.item)
    else if t in s.parked then Some(s.parked[t])
    else None
  }

  /** The get or peek the consumer has called and not been answered. */
  function CallOf(s: State): Option<Op> {
    if s.consumer.Inside? then Some(s.consumer.op) else None
  }

  predicate HolderUp(s: State) {
    s.producer.Holding? ==> s.producer.t !in s.parked
  }

  lemma HolderIsUp(c: Config, s: State)
    requires Reachable(Sys(c), s)
    ensures HolderUp(s)
  {
    forall x, a | HolderUp(x) && Next(c, x, a).Some? ensures HolderUp(Next(c, x, a).value) {
      hide AfterGetStep;
    }
    Holds(Sys(c), x => HolderUp(x), s);
  }

  /** Any put can begin once the mutex is free, any get or peek once the one before is over. */
  lemma CallsBegin(c: Config, s: State, t: nat, op: Op)
    requires op.Put? ==> s.producer == Free && PutOf(s, t) == None
    requires !op.Put? ==> CallOf(s) == None
    ensures var n := Next(c, s, if op.Put? then Enter(t, op.item) else Call(op));
      n.Some? && (if op.Put? then PutOf(n.value, t) == Some(op.item) else CallOf(n.value) == Some(op))
  {
  }

  /** The log is longer by an answer to `op`. */
  ghost predicate Logged(s: State, s': State, op: Op) {
    exists reply :: s'.log == s.log + [Entry(op, reply)]
  }

  lemma PutStatementKept(c: Config, s: State)
    requires HolderUp(s) && s.producer.Holding? && Next(c, s, PutStep).Some?
    ensures var s' := Next(c, s, PutStep).value; var t := s.producer.t;
      && (forall u :: u != t ==> PutOf(s', u) == PutOf(s, u))
      && (PutOf(s', t) == PutOf(s, t) ==> s'.log == s.log)
      && (PutOf(s', t) != PutOf(s, t) ==>
            PutOf(s', t) == None && PutOf(s, t).Some? && Logged(s, s', Put(PutOf(s, t).value)))
  {
    hide AfterGetStep;
  }

  lemma GetStatementKept(c: Config, s: State)
    requires s.consumer.Inside? && Next(c, s, GetStep).Some?
    ensures var s' := Next(c, s, GetStep).value;
      && (CallOf(s') == CallOf(s) ==> s'.log == s.log)
      && (CallOf(s') != CallOf(s) ==>
            CallOf(s') == None && CallOf(s).Some? && Logged(s, s', CallOf(s).value))
  {
    hide AfterPutStep;
  }

  /**
    No call changes on its way: a thread keeps what it called put with, through sleep
    and return, and the consumer its get or peek, until a statement of its own answers
    that call in the log; nothing else is ever logged.
   */
  lemma CallsKept(c: Config, s: State, a: Action)
    requires Reachable(Sys(c), s) && Next(c, s, a).Some?
    ensures var s' := Next(c, s, a).value;
      && (forall t :: PutOf(s', t) == PutOf(s, t)
            || (a.Enter? && a.t == t && PutOf(s, t) == None && PutOf(s', t) == Some(a.item))
            || (a == PutStep && PutOf(s, t).Some? && PutOf(s', t) == None && Logged(s, s', Put(PutOf(s, t).value))))
      && (CallOf(s') == CallOf(s)
            || (a.Call? && CallOf(s) == None && CallOf(s') == Some(a.op))
            || (a == GetStep && CallOf(s).Some? && CallOf(s') == None && Logged(s, s', CallOf(s).value)))
      && (a.Enter? ==> PutOf(s', a.t) == Some(a.item))
      && (a.Call? ==> CallOf(s') == Some(a.op))
      && (s'.log == s.log || (exists t :: PutOf(s, t).Some? && PutOf(s', t) == None)
                          || (CallOf(s).Some? && CallOf(s') == None))
  {
    HolderIsUp(c, s);
    hide AfterPutStep, AfterGetStep;
    match a
    case PutStep =>
      PutStatementKept(c, s);
      hide PutOf, Logged;
      assert Next(c, s, PutStep).value.consumer == s.consumer by { ConsumerApart(c, s); }
    case GetStep =>
      GetStatementKept(c, s);
      hide Logged;
      assert forall t :: PutOf(Next(c, s, GetStep).value, t) == PutOf(s, t) by { ProducerApart(c, s); }
    case _ =>
  }

  lemma ConsumerApart(c: Config, s: State)
    requires Next(c, s, PutStep).Some?
    ensures Next(c, s, PutStep).value.consumer == s.consumer
  {
    hide AfterGetStep;
  }

  lemma ProducerApart(c: Config, s: State)
    requires Next(c, s, GetStep).Some?
    ensures var s' := Next(c, s, GetStep).value; s'.producer == s.producer && s'.parked == s.parked
  {
    hide AfterPutStep;
  }

  /** A put sleeps only when no room is reported, and once only if its wait has a time limit. */
  lemma PutSleepsIff(c: Config, s: State)
    requires s.producer.Holding? && s.producer.stage == Guard
    ensures Next(c, s, PutStep).Some?
    ensures var p, s' := s.producer, Next(c, s, PutStep).value;
      if c.reported <= s.size && (c.timed ==> !p.waited)
      then s' == s.(producer := Free, parked := s.parked[p.t := p.item])
      else s' == s.(producer := p.(stage := TestIn))
  {
  }

  // ----------------------------------------------------- when a put returns

  ghost function From(c: Config, s: State): System<State, Action> {
    Sys(c).(init := s)
  }

  lemma LaterInv(c: Config, s: State, t: State)
    requires Reachable(Sys(c), s) && Reachable(From(c, s), t)
    ensures Reachable(Sys(c), t) && Inv(c, t) && HolderUp(t)
  {
    ReachOn(Sys(c), s, t);
    ReachableInv(c, t);
    HolderIsUp(c, t);
  }

  /** The holder of the mutex goes on until it leaves or parks. */
  lemma {:induction false} FreeMutex(c: Config, s: State, u: State, t: nat) returns (v: State)
    requires Reachable(Sys(c), s) && Reachable(From(c, s), u)
    ensures Reachable(From(c, s), v) && v.producer == Free
    ensures PutOf(u, t).Some? ==> PutOf(v, t) == None || t in v.parked
    decreases if u.producer == Free then 0 else 1 + StageRank(u.producer.stage)
  {
    hide CellsOk, IndexesOk, LogOk, AfterGetStep;
    if u.producer == Free {
      v := u;
    } else {
      LaterInv(c, s, u);
      NeverStuckInside(c, u);
      v := Take(From(c, s), u, PutStep);
      v := FreeMutex(c, s, v, t);
    }
  }

  function DrainRank(s: State): nat {
    match s.consumer
    case Outside => if s.size == 0 then 0 else 6
    case Inside(op, _, stage) => if op.Peek? then 7 + GetRank(stage) else GetRank(stage)
  }

  /** One statement more of a consumer that gets whenever it can. */
  lemma DrainStep(c: Config, s: State) returns (a: Action)
    requires Inv(c, s) && s.size > 0 && (s.consumer.Inside? ==> Next(c, s, GetStep).Some?)
    ensures Next(c, s, a).Some?
    ensures var s' := Next(c, s, a).value;
      && s'.producer == s.producer && s'.parked == s.parked
      && (s'.size < s.size || (s'.size == s.size && DrainRank(s') < DrainRank(s)))
  {
    hide CellsOk, IndexesOk, LogOk, AfterPutStep;
    a := if s.consumer == Outside then Call(Get(0)) else GetStep;
  }

  /** The consumer empties the queue, whatever it was in the middle of. */
  lemma {:induction false} Drain(c: Config, s: State, u: State) returns (v: State)
    requires Reachable(Sys(c), s) && Reachable(From(c, s), u)
    ensures Reachable(From(c, s), v) && v.producer == u.producer && v.parked == u.parked && v.size == 0
    decreases u.size, DrainRank(u)
  {
    hide Inv, Next, DrainRank;
    if u.size == 0 {
      v := u;
    } else {
      LaterInv(c, s, u);
      NeverStuckInside(c, u);
      var a := DrainStep(c, u);
      v := Take(From(c, s), u, a);
      v := Drain(c, s, v);
    }
  }

  /** A put past its wait runs to its answer. */
  lemma {:induction false} FinishPut(c: Config, s: State, u: State, t: nat) returns (v: State)
    requires Reachable(Sys(c), s) && Reachable(From(c, s), u)
    requires u.producer.Holding? && u.producer.t == t && u.producer.stage != Guard
    ensures Reachable(From(c, s), v) && PutOf(v, t) == None
    decreases StageRank(u.producer.stage)
  {
    hide CellsOk, IndexesOk, LogOk, AfterGetStep;
    LaterInv(c, s, u);
    if u.producer.stage == Leave {
      v := u;
    } else {
      NeverStuckInside(c, u);
      v := Take(From(c, s), u, PutStep);
      v := FinishPut(c, s, v, t);
    }
  }

  lemma PutReturns(c: Config, s: State, t: nat) returns (v: State)
    requires Reachable(Sys(c), s) && PutOf(s, t).Some? && (c.timed || c.reported > 0)
    ensures Reachable(From(c, s), v) && PutOf(v, t) == None
  {
    hide Inv, AfterGetStep;
    ReachStart(From(c, s));
    v := FreeMutex(c, s, s, t);
    if t in v.parked {
      v := Drain(c, s, v);
      v := Take(From(c, s), v, Reenter(t));
      v := Take(From(c, s), v, PutStep);
      v := FinishPut(c, s, v, t);
    }
  }

  lemma NeverReturns(c: Config, s: State, t: nat, u: State)
    requires Reachable(Sys(c), s) && PutOf(s, t).Some? && !c.timed && c.reported == 0
    requires Reachable(From(c, s), u)
    ensures PutOf(u, t).Some?
  {
    NothingInInductive(c);
    Holds(Sys(c), x => NothingIn(x), s);
    HolderIsUp(c, s);
    forall x, a | NothingIn(x) && PutOf(x, t).Some? && Next(c, x, a).Some?
      ensures NothingIn(Next(c, x, a).value) && PutOf(Next(c, x, a).value, t).Some?
    {
      assert Next(c, x, a) == Sys(c).next(x, a);
    }
    Holds(From(c, s), x => NothingIn(x) && PutOf(x, t).Some?, u);
  }

  /**
    Exactly when a put once called can return, from every state a run reaches, asleep
    or not: if some room is reported or its wait ends by time.
   */
  lemma PutReturnsIff(c: Config, s: State, t: nat)
    requires Reachable(Sys(c), s) && PutOf(s, t).Some?
    ensures (exists u :: Reachable(From(c, s), u) && PutOf(u, t) == None) <==> c.timed || c.reported > 0
  {
    hide Next, PutOf;
    if c.timed || c.reported > 0 {
      var u := PutReturns(c, s, t);
    } else {
      forall u | Reachable(From(c, s), u) ensures PutOf(u, t).Some? {
        NeverReturns(c, s, t, u);
      }
    }
  }
}
