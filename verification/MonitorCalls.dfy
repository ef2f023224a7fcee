/** Calls of the blocking and timed decorators from beginning to end: what is called is what is answered, and when. */
module MonitorCalls {
  import opened Bytes
  import opened Fifo
  import opened Runs
  import opened Monitor

  /** What a thread has called and not been answered. */
  function CallOf(pc: Pc): Option<Call> {
    match pc
    case Locking(call, _) => Some(call)
    case Checking(call, _) => Some(call)
    case Waiting(call) => Some(call)
    case _ => None
  }

  /** Between `s` and `s'` the bounded queue has carried out `op` and answered it. */
  ghost predicate Answers(c: Config, s: State, s': State, op: Op) {
    && s'.queue == After(c.cells, s.queue, op)
    && s'.log == s.log + [Entry(op, Answer(c.cells, s.queue, op))]
  }

  /** A thread outside can begin any call, and one asleep can wake at any time, for a reason or for none. */
  lemma CallsBegin(c: Config, s: State, t: nat, call: Call)
    requires t < |s.pcs|
    ensures s.pcs[t] == Idle ==>
      Next(c, s, Start(t, call)).Some? && CallOf(Next(c, s, Start(t, call)).value.pcs[t]) == Some(call)
    ensures s.pcs[t] == Waiting(call) ==>
      Next(c, s, Wake(t)) == Some(s.(pcs := s.pcs[t := Locking(call, true)]))
  {
  }

  /**
    No call changes on its way: through lock, wait and wakeup each thread keeps what it
    called until its own check has the queue answer just that; nothing else is logged.
   */
  lemma CallsKept(c: Config, s: State, a: Action)
    requires Next(c, s, a).Some?
    ensures var s' := Next(c, s, a).value;
      && |s'.pcs| == |s.pcs|
      && (forall t :: 0 <= t < |s.pcs| ==>
            || CallOf(s'.pcs[t]) == CallOf(s.pcs[t])
            || (a.Start? && a.t == t && CallOf(s.pcs[t]) == None && CallOf(s'.pcs[t]) == Some(a.call))
            || (a == Check(t) && CallOf(s.pcs[t]).Some? && CallOf(s'.pcs[t]) == None
                && Answers(c, s, s', CallOf(s.pcs[t]).value.op)))
      && (a.Start? ==> CallOf(s'.pcs[a.t]) == Some(a.call))
      && ((s'.log == s.log && s'.queue == s.queue)
          || (CallOf(s.pcs[a.t]).Some? && CallOf(s'.pcs[a.t]) == None))
  {
    hide Answer, After;
  }

  // ------------------------------------------------------------ timed calls

  /** Back from its wait, or from the end of it. */
  predicate Back(pc: Pc) {
    (pc.Locking? || pc.Checking?) && pc.woken
  }

  /**
    A timed call waits at most once: back from its wait it never sleeps again, and its
    check is always answered, full or empty included.
   */
  lemma TimedWaitsOnce(c: Config, s: State, a: Action, t: nat)
    requires t < |s.pcs| && Back(s.pcs[t]) && s.pcs[t].call.timed && Next(c, s, a).Some?
    ensures var s' := Next(c, s, a).value; var call := s.pcs[t].call;
      && |s'.pcs| == |s.pcs|
      && (if a == Check(t) then CallOf(s'.pcs[t]) == None && Answers(c, s, s', call.op)
          else Back(s'.pcs[t]) && s'.pcs[t].call == call)
  {
    hide Answer, After;
  }

  /**
    Any other check lets the call through exactly when there is what it wants, room or
    an item, and else gives up the mutex.
   */
  lemma WaitsForRoomOrItem(c: Config, s: State, t: nat)
    requires t < |s.pcs| && s.pcs[t].Checking? && !(s.pcs[t].woken && s.pcs[t].call.timed)
    ensures Next(c, s, Check(t)).Some?
    ensures var s' := Next(c, s, Check(t)).value; var call := s.pcs[t].call;
      if (if call.op.Put? then |s.queue| < c.reported else s.queue != [])
      then CallOf(s'.pcs[t]) == None && Answers(c, s, s', call.op)
      else s' == s.(pcs := s.pcs[t := Waiting(call)], lock := None)
  {
    hide Answer, After;
  }

  /** The runs from `s` on in which nobody starts another call. */
  ghost function NoMoreCalls(c: Config, s: State): System<State, Action> {
    System(s, (x, a: Action) => if a.Start? then None else Next(c, x, a))
  }

  lemma LaterInv(c: Config, s: State, u: State)
    requires Reachable(Sys(c), s) && Reachable(NoMoreCalls(c, s), u)
    ensures Inv(c, u)
  {
    ReachableInv(c, s);
    InvInductive(c);
    forall x, a | Inv(c, x) && Next(c, x, a).Some? ensures Inv(c, Next(c, x, a).value) {
      assert Sys(c).next(x, a) == Next(c, x, a);
    }
    Holds(NoMoreCalls(c, s), x => Inv(c, x), u);
  }

  function LockRank(pc: Pc): nat {
    match pc
    case Checking(_, _) => 3
    case Notifying(_) => 2
    case Unlocking => 1
    case _ => 0
  }

  /** The thread inside the critical section goes one statement on. */
  lemma HolderStep(c: Config, s: State) returns (a: Action)
    requires Exclusive(c, s) && s.lock.Some?
    ensures Next(c, s, a).Some? && !a.Start?
    ensures var s' := Next(c, s, a).value; var h := s.lock.value;
      s'.lock == None || (s'.lock == s.lock && LockRank(s'.pcs[h]) < LockRank(s.pcs[h]))
  {
    hide Answer, After;
    var h := s.lock.value;
    a := Check(h);
    if s.pcs[h].Unlocking? {
      a := Unlock(h);
    } else if s.pcs[h].Notifying? {
      var g := s.pcs[h].forGetters;
      if u :| 0 <= u < |s.pcs| && Hears(g, s.pcs[u]) {
        a := Notify(h, Some(u));
      } else {
        a := Notify(h, None);
      }
    }
  }

  /** Thread `t` is still in its call or has been answered. */
  predicate InOrDone(s: State, t: nat, call: Call) {
    t < |s.pcs| && (CallOf(s.pcs[t]) == Some(call) || CallOf(s.pcs[t]) == None)
  }

  lemma InOrDoneStep(c: Config, s: State, a: Action, t: nat, call: Call)
    requires InOrDone(s, t, call) && !a.Start? && Next(c, s, a).Some?
    ensures InOrDone(Next(c, s, a).value, t, call)
  {
    hide Next;
    CallsKept(c, s, a);
  }

  lemma {:induction false} FreeLock(c: Config, s: State, u: State, t: nat, call: Call) returns (v: State)
    requires Reachable(Sys(c), s) && Reachable(NoMoreCalls(c, s), u) && InOrDone(u, t, call)
    ensures Reachable(NoMoreCalls(c, s), v) && InOrDone(v, t, call) && v.lock == None
    decreases if u.lock == None then 0 else 1 + (if u.lock.value < |u.pcs| then LockRank(u.pcs[u.lock.value]) else 0)
  {
    hide Next, LockRank, InOrDone;
    if u.lock == None {
      v := u;
    } else {
      LaterInv(c, s, u);
      var a := HolderStep(c, u);
      InOrDoneStep(c, u, a, t, call);
      v := Take(NoMoreCalls(c, s), u, a);
      LaterInv(c, s, v);
      v := FreeLock(c, s, v, t, call);
    }
  }

  /** How often a timed call can still go to sleep, and whether it sleeps now. */
  function TurnsLeft(pc: Pc): nat {
    match pc
    case Locking(_, woken) => if woken then 0 else 2
    case Waiting(_) => 1
    case _ => 0
  }

  lemma {:induction false} TimedEnds(c: Config, s: State, u: State, t: nat, call: Call) returns (v: State)
    requires Reachable(Sys(c), s) && Reachable(NoMoreCalls(c, s), u) && InOrDone(u, t, call)
    requires call.timed && u.lock == None
    ensures Reachable(NoMoreCalls(c, s), v) && t < |v.pcs| && CallOf(v.pcs[t]) == None
    decreases TurnsLeft(u.pcs[t])
  {
    hide Answer, After, Notified;
    LaterInv(c, s, u);
    if CallOf(u.pcs[t]) == None {
      v := u;
    } else if u.pcs[t].Waiting? {
      v := Take(NoMoreCalls(c, s), u, Wake(t));
      v := TimedEnds(c, s, v, t, call);
    } else {
      v := Take(NoMoreCalls(c, s), u, Acquire(t));
      v := Take(NoMoreCalls(c, s), v, Check(t));
      if CallOf(v.pcs[t]).Some? {
        v := TimedEnds(c, s, v, t, call);
      }
    }
  }

  /** Whatever the others do, or if they do nothing but leave the mutex, a timed call can be answered. */
  lemma TimedCallReturns(c: Config, s: State, t: nat)
    requires Reachable(Sys(c), s) && t < |s.pcs|
    requires CallOf(s.pcs[t]).Some? && CallOf(s.pcs[t]).value.timed
    ensures exists u :: Reachable(NoMoreCalls(c, s), u) && t < |u.pcs| && CallOf(u.pcs[t]) == None
  {
    hide Next;
    var call := CallOf(s.pcs[t]).value;
    ReachStart(NoMoreCalls(c, s));
    var u := FreeLock(c, s, s, t, call);
    u := TimedEnds(c, s, u, t, call);
  }
}
