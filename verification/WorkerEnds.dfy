/** How a connection worker comes to its end: after a stop, after a failure, after one of its threads has gone. */
module WorkerEnds {
  import opened Bytes
  import opened Frames
  import opened Fifo
  import opened Runs
  import opened Worker
  import opened WorkerLaws

  // ------------------------------------------------------------- conditions

  /** A blocking put that no room is ever reported to. */
  predicate NoRoom(c: Config) {
    c.readBlocking && c.readReported == 0
  }

  /** Parsing this chunk crashes the read thread, or brings it to a put that never finds room. */
  predicate DoomedBy(c: Config, r: ReadSide, bytes: seq<byte>) {
    var o := Parse(c.headCheck, r.residue + bytes);
    o.fault || (o.datagrams != [] && NoRoom(c))
  }

  /**
    The read thread has crashed, or the chunk it is about to parse makes it crash; or
    it is in a put that never finds room, or about to parse out a datagram for one.
   */
  predicate Doomed(c: Config, r: ReadSide) {
    || r.crashed
    || (r.pc.RPutting? && NoRoom(c))
    || (r.pc.RParsing? && DoomedBy(c, r, r.pc.bytes))
  }

  /** The same if nobody asks it to stop: it holds such a chunk and has only the stop flag left to look at. */
  predicate Lost(c: Config, s: State) {
    || Doomed(c, s.r)
    || (s.r.pc.RGotStop? && s.r.pc.status > 0 && !s.flags.stopAsked && DoomedBy(c, s.r, s.r.pc.bytes))
  }

  predicate ReaderOut(c: Config, r: ReadSide) {
    !c.readQueue || r.pc.RLeaving? || r.pc.RDone? || (r.pc.RGotAlive? && r.pc.status < 0)
  }

  predicate WriterOut(c: Config, w: WriteSide) {
    !c.writeQueue || w.pc.WLeaving? || w.pc.WDone?
  }

  /** Something ends the worker: a stop, or one of its threads is out of its loop, gone, or without its queue. */
  predicate Ending(c: Config, s: State) {
    s.flags.stopAsked || ReaderOut(c, s.r) || WriterOut(c, s.w)
  }

  /** Nothing that would end a worker: no stop, no failing read, no failing send. */
  predicate Calm(a: Action) {
    !a.Stop? && (a.ReadSource? ==> a.status >= 0) && (a.Send? ==> a.status >= 0)
  }

  /** The runs from `s` on in which nothing further ends the worker. */
  ghost function CalmFrom(c: Config, s: State): System<State, Action> {
    System(s, (x, a) => if Calm(a) then Next(c, x, a) else None)
  }

  lemma CalmIsRun(c: Config, s: State, t: State)
    requires Reachable(CalmFrom(c, s), t)
    ensures Reachable(From(c, s), t)
  {
    hide Next;
    ReachStart(From(c, s));
    forall x, a | Reachable(From(c, s), x) && Calm(a) && Next(c, x, a).Some?
      ensures Reachable(From(c, s), Next(c, x, a).value)
    {
      var y := Take(From(c, s), x, a);
    }
    Holds(CalmFrom(c, s), x => Reachable(From(c, s), x), t);
  }

  /** A thread without a queue never enters its loop, and a put without room never returns. */
  ghost predicate ConfigInv(c: Config, s: State) {
    && (!c.readQueue ==> s.r.pc.RTestAlive? || s.r.pc.RLeaving? || s.r.pc.RDone?)
    && (!c.writeQueue ==> s.w.pc.WTestAlive? || s.w.pc.WLeaving? || s.w.pc.WDone?)
    && (NoRoom(c) ==> !s.r.pc.RInnerAlive? && !s.r.pc.RInnerStop? && !s.r.pc.ROuterAlive? && !s.r.pc.ROuterStop?)
  }

  lemma ConfigStep(c: Config, s: State, a: Action)
    requires ConfigInv(c, s) && Next(c, s, a).Some?
    ensures ConfigInv(c, Next(c, s, a).value)
  {
    hide Parse, Answer, After;
  }

  /** All that is known of a state on a run, and of one on a calm continuation of it. */
  ghost predicate Known(c: Config, s: State) {
    Reachable(Sys(c), s) && Inv(c, s) && ConfigInv(c, s)
  }

  lemma RunKnown(c: Config, s: State)
    requires Reachable(Sys(c), s)
    ensures Known(c, s)
  {
    ReachableInv(c, s);
    forall x, a | ConfigInv(c, x) && Next(c, x, a).Some? ensures ConfigInv(c, Next(c, x, a).value) {
      hide Next, ConfigInv;
      ConfigStep(c, x, a);
    }
    Holds(Sys(c), x => ConfigInv(c, x), s);
  }

  lemma CalmKnown(c: Config, s: State, t: State)
    requires Reachable(Sys(c), s) && Reachable(CalmFrom(c, s), t)
    ensures Known(c, t)
  {
    CalmIsRun(c, s, t);
    ReachOn(Sys(c), s, t);
    RunKnown(c, t);
  }

  // ------------------------------------------------------ the read thread out

  /** The read thread has a reason to leave its loop. */
  predicate OnWayOut(c: Config, s: State) {
    s.flags.stopAsked || !s.flags.writeAlive || ReaderOut(c, s.r)
  }

  /** Statements the read thread can still execute once it sees that stop is asked. */
  function ReaderRank(pc: Reader): nat {
    match pc
    case RDone => 0
    case RLeaving => 1
    case RTestStop => 2
    case RGotStop(_, _) => 2
    case RTestAlive => 3
    case RGotAlive(_, _) => 3
    case RReading => 4
    case ROuterStop(_) => 4
    case ROuterAlive(_) => 5
    case RInnerStop(_, _) => 6
    case RInnerAlive(_, _) => 7
    case RPutting(_) => 8
    case RParsing(_) => 9
  }

  /** Statements the read thread can still execute once the write thread has gone. */
  function HangupRank(pc: Reader): nat {
    match pc
    case RDone => 0
    case RLeaving => 1
    case RTestAlive => 2
    case RGotAlive(_, _) => 2
    case RReading => 3
    case ROuterAlive(_) => 3
    case RTestStop => 4
    case RInnerAlive(_, _) => 4
    case RPutting(_) => 5
    case RParsing(_) => 6
    case RInnerStop(_, _) => 6
    case ROuterStop(_) => 6
    case RGotStop(_, _) => 7
  }

  function OutRank(s: State): nat {
    if s.flags.stopAsked then ReaderRank(s.r.pc) else HangupRank(s.r.pc)
  }

  /** What takes the read thread on its way out: its own statement, a read of nothing, or room made by the consumer. */
  function WayOut(c: Config, s: State): Action {
    if s.r.pc == RReading then ReadSource(0, [])
    else if s.r.pc.RPutting? && c.readBlocking && |s.r.inbox| >= c.readReported then Consume
    else ReaderStep
  }

  /** On its way out the read thread is spared a bad end for good, if it is spared it now. */
  lemma SparedStays(c: Config, s: State, a: Action)
    requires ConfigInv(c, s) && OnWayOut(c, s) && !Lost(c, s) && Next(c, s, a).Some?
    ensures OnWayOut(c, Next(c, s, a).value) && !Lost(c, Next(c, s, a).value)
  {
    hide Parse, WriterMove, Answer, After;
  }

  lemma WayOutTaken(c: Config, s: State)
    requires Inv(c, s) && ConfigInv(c, s) && OnWayOut(c, s) && !Lost(c, s) && !s.r.pc.RDone?
    ensures Next(c, s, WayOut(c, s)).Some?
    ensures var s' := Next(c, s, WayOut(c, s)).value;
      OutRank(s') < OutRank(s) || (OutRank(s') == OutRank(s) && |s'.r.inbox| < |s.r.inbox|)
  {
    hide Parse, WriterMove, ReadInv, WriteInv, GuardInv;
  }

  lemma EndReader(c: Config, s: State, t: State) returns (u: State)
    requires Reachable(Sys(c), s) && Reachable(CalmFrom(c, s), t) && OnWayOut(c, t) && !Lost(c, t)
    ensures Reachable(CalmFrom(c, s), u) && u.r.pc.RDone?
    decreases OutRank(t), |t.r.inbox|
  {
    if t.r.pc.RDone? {
      u := t;
    } else {
      hide Next, OutRank, OnWayOut, Inv, ConfigInv, Lost;
      CalmKnown(c, s, t);
      WayOutTaken(c, t);
      SparedStays(c, t, WayOut(c, t));
      u := Take(CalmFrom(c, s), t, WayOut(c, t));
      u := EndReader(c, s, u);
    }
  }

  // ----------------------------------------------------- the write thread out

  /** Statements the write thread can still execute once the read thread has gone. */
  function WriterHangupRank(pc: Writer): nat {
    match pc
    case WDone => 0
    case WLeaving => 1
    case WTestAlive => 2
    case WPeekedAlive(_) => 2
    case WPeeking => 3
    case WDropping(_) => 3
    case WTestStop => 4
    case WSending(_) => 4
    case WPeekedStop(_) => 5
  }

  /** A send in progress succeeds. */
  function WriterWayOut(s: State): Action {
    if s.w.pc.WSending? then Send(1) else WriterStep
  }

  lemma WriterWayOutTaken(c: Config, s: State)
    requires Inv(c, s) && s.r.pc.RDone? && !s.w.pc.WDone?
    ensures Next(c, s, WriterWayOut(s)).Some?
    ensures var s' := Next(c, s, WriterWayOut(s)).value;
      s'.r == s.r && WriterHangupRank(s'.w.pc) < WriterHangupRank(s.w.pc)
  {
    hide ReaderMove, Answer, After, ReadInv, WriteInv;
  }

  lemma EndWriter(c: Config, s: State, t: State) returns (u: State)
    requires Reachable(Sys(c), s) && Reachable(CalmFrom(c, s), t) && t.r.pc.RDone?
    ensures Reachable(CalmFrom(c, s), u) && u.r.pc.RDone? && u.w.pc.WDone?
    decreases WriterHangupRank(t.w.pc)
  {
    if t.w.pc.WDone? {
      u := t;
    } else {
      hide Next, WriterHangupRank, Inv;
      CalmKnown(c, s, t);
      WriterWayOutTaken(c, t);
      u := Take(CalmFrom(c, s), t, WriterWayOut(t));
      u := EndWriter(c, s, u);
    }
  }

  function GuardRank(g: Guard): nat {
    match g
    case JoinRead => 4
    case JoinWrite => 3
    case SetStopped => 2
    case CallBack => 1
    case GuardDone => 0
  }

  lemma EndGuard(c: Config, s: State, t: State) returns (u: State)
    requires Reachable(Sys(c), s) && Reachable(CalmFrom(c, s), t) && t.r.pc.RDone? && t.w.pc.WDone?
    ensures Reachable(CalmFrom(c, s), u) && u.callbacks == 1
    decreases GuardRank(t.guard)
  {
    hide Parse, ReadInv, WriteInv;
    CalmKnown(c, s, t);
    if t.guard.GuardDone? {
      u := t;
    } else {
      assert Next(c, t, GuardStep).Some?;
      u := Take(CalmFrom(c, s), t, GuardStep);
      u := EndGuard(c, s, u);
    }
  }

  /** A write thread out of its loop goes first, and the read thread then has its reason. */
  lemma WriterLeaves(c: Config, s: State, t: State) returns (u: State)
    requires Reachable(Sys(c), s) && Reachable(CalmFrom(c, s), t) && WriterOut(c, t.w) && !t.r.crashed
    ensures Reachable(CalmFrom(c, s), u) && !u.flags.writeAlive
    ensures u.r == t.r && u.flags.stopAsked == t.flags.stopAsked
    decreases WriterHangupRank(t.w.pc)
  {
    hide ReaderMove, Answer, After, ReadInv, WriteInv;
    CalmKnown(c, s, t);
    if t.w.pc.WDone? {
      u := t;
    } else {
      assert Next(c, t, WriterStep).Some?;
      u := Take(CalmFrom(c, s), t, WriterStep);
      u := WriterLeaves(c, s, u);
    }
  }

  /** From a worker that is ending and not lost to its callback. */
  lemma End(c: Config, s: State) returns (u: State)
    requires Reachable(Sys(c), s) && Ending(c, s) && !Lost(c, s)
    ensures Reachable(CalmFrom(c, s), u) && u.callbacks == 1
  {
    hide Next, DoomedBy, ReaderOut;
    ReachStart(CalmFrom(c, s));
    u := s;
    if !OnWayOut(c, s) {
      u := WriterLeaves(c, s, s);
    }
    u := EndReader(c, s, u);
    u := EndWriter(c, s, u);
    u := EndGuard(c, s, u);
  }

  // ------------------------------------------------------------- no way out

  /** Without a reason to end no thread leaves its loop. */
  lemma GoesOn(c: Config, s: State, a: Action)
    requires GuardInv(s) && !Ending(c, s) && Calm(a) && Next(c, s, a).Some?
    ensures !Ending(c, Next(c, s, a).value)
  {
    hide Parse, Answer, After;
  }

  lemma LostStays(c: Config, s: State, a: Action)
    requires Lost(c, s) && Calm(a) && Next(c, s, a).Some?
    ensures Lost(c, Next(c, s, a).value)
  {
    hide Parse, WriterMove, Answer, After;
  }

  lemma NotOver(c: Config, s: State)
    requires Inv(c, s) && (Lost(c, s) || !Ending(c, s))
    ensures s.callbacks == 0
  {
    hide ReadInv, WriteInv, DoomedBy;
  }

  lemma NoEnd(c: Config, s: State, t: State)
    requires Reachable(Sys(c), s) && (Lost(c, s) || !Ending(c, s)) && Reachable(CalmFrom(c, s), t)
    ensures t.callbacks == 0
  {
    RunKnown(c, s);
    var lost := Lost(c, s);
    forall x, a | Inv(c, x) && (if lost then Lost(c, x) else !Ending(c, x)) && Calm(a) && Next(c, x, a).Some?
      ensures var y := Next(c, x, a).value; Inv(c, y) && (if lost then Lost(c, y) else !Ending(c, y))
    {
      hide Next, Lost, Ending, Calm, ReadInv, WriteInv, GuardInv, LoopInv;
      InvStep(c, x, a);
      if lost {
        LostStays(c, x, a);
      } else {
        GoesOn(c, x, a);
      }
    }
    Holds(CalmFrom(c, s), x => Inv(c, x) && (if lost then Lost(c, x) else !Ending(c, x)), t);
    NotOver(c, t);
  }

  lemma DoomedStays(c: Config, s: State, a: Action)
    requires Doomed(c, s.r) && Next(c, s, a).Some?
    ensures Doomed(c, Next(c, s, a).value.r)
  {
    hide Parse, WriterMove, Answer, After;
  }

  lemma DoomedForGood(c: Config, s: State, t: State)
    requires Reachable(Sys(c), s) && Doomed(c, s.r) && Reachable(From(c, s), t)
    ensures Doomed(c, t.r) && t.callbacks == 0
  {
    forall x: State, a | Doomed(c, x.r) && Next(c, x, a).Some? ensures Doomed(c, Next(c, x, a).value.r) {
      hide Next, Doomed;
      DoomedStays(c, x, a);
    }
    Holds(From(c, s), (x: State) => Doomed(c, x.r), t);
    LaterInv(c, s, t);
    NotOver(c, t);
  }

  // ------------------------------------------------------------- theorems

  /** The worker can still be brought to its callback with nothing further happening to it. */
  ghost predicate CanEnd(c: Config, s: State) {
    exists u :: Reachable(CalmFrom(c, s), u) && u.callbacks == 1
  }

  /**
    Exactly when a worker ends by itself.  From every state of every run, if nobody
    stops it and neither source nor sink fails, the callback can be reached if and only
    if something has ended the worker before and its read thread is not lost.
   */
  lemma EndsIff(c: Config, s: State)
    requires Reachable(Sys(c), s)
    ensures CanEnd(c, s) <==> Ending(c, s) && !Lost(c, s)
  {
    hide Next, Ending, Lost;
    if Ending(c, s) && !Lost(c, s) {
      var u := End(c, s);
    } else {
      forall u | Reachable(CalmFrom(c, s), u) ensures u.callbacks != 1 {
        NoEnd(c, s, u);
      }
    }
  }

  /** And whatever happens in between: with a reason for the read thread to leave, every run can be continued so. */
  lemma EndsAlwaysIff(c: Config, s: State)
    requires Reachable(Sys(c), s) && OnWayOut(c, s)
    ensures (forall t :: Reachable(From(c, s), t) ==> CanEnd(c, t)) <==> !Lost(c, s)
  {
    hide Next, OnWayOut, Lost, CanEnd;
    if Lost(c, s) {
      EndsIff(c, s);
      ReachStart(From(c, s));
    } else {
      forall t | Reachable(From(c, s), t) ensures CanEnd(c, t) {
        SparedForGood(c, s, t);
        EndsIff(c, t);
      }
    }
  }

  lemma SparedForGood(c: Config, s: State, t: State)
    requires Reachable(Sys(c), s) && OnWayOut(c, s) && !Lost(c, s) && Reachable(From(c, s), t)
    ensures Reachable(Sys(c), t) && Ending(c, t) && !Lost(c, t)
  {
    RunKnown(c, s);
    forall x, a | ConfigInv(c, x) && OnWayOut(c, x) && !Lost(c, x) && Next(c, x, a).Some?
      ensures var y := Next(c, x, a).value; ConfigInv(c, y) && OnWayOut(c, y) && !Lost(c, y)
    {
      hide Next, ConfigInv, OnWayOut, Lost;
      ConfigStep(c, x, a);
      SparedStays(c, x, a);
    }
    Holds(From(c, s), x => ConfigInv(c, x) && OnWayOut(c, x) && !Lost(c, x), t);
    LaterInv(c, s, t);
    GoneMeansDone(c, t);
  }

  lemma GoneMeansDone(c: Config, s: State)
    requires Inv(c, s) && OnWayOut(c, s)
    ensures Ending(c, s)
  {
    hide ReadInv, WriteInv, LoopInv;
  }

  /**
    A stop leads to the callback: from a state in which stop is asked some run reaches
    it if and only if the read thread is not doomed.
   */
  lemma StopReachesCallbackIff(c: Config, s: State)
    requires Reachable(Sys(c), s) && s.flags.stopAsked
    ensures (exists t :: Reachable(From(c, s), t) && t.callbacks == 1) <==> !Doomed(c, s.r)
  {
    hide Next, Doomed;
    if Doomed(c, s.r) {
      forall t | Reachable(From(c, s), t) ensures t.callbacks != 1 {
        DoomedForGood(c, s, t);
      }
    } else {
      var u := End(c, s);
      CalmIsRun(c, s, u);
    }
  }

  /**
    And then it leads there whatever happens in between: every run can be continued
    to the callback if and only if the read thread is not doomed.  A put with room may
    always go on here, the notice that wakes it being `LostNotice`'s matter.
   */
  lemma StopAlwaysReachesCallbackIff(c: Config, s: State)
    requires Reachable(Sys(c), s) && s.flags.stopAsked
    ensures (forall t :: Reachable(From(c, s), t) ==> exists u :: Reachable(From(c, t), u) && u.callbacks == 1)
      <==> !Doomed(c, s.r)
  {
    hide Next, Doomed;
    if Doomed(c, s.r) {
      StopReachesCallbackIff(c, s);
      ReachStart(From(c, s));
    } else {
      EndsAlwaysIff(c, s);
      forall t | Reachable(From(c, s), t) ensures exists u :: Reachable(From(c, t), u) && u.callbacks == 1 {
        var u :| Reachable(CalmFrom(c, t), u) && u.callbacks == 1;
        CalmIsRun(c, t, u);
      }
    }
  }

  /**
    The stop itself: it can be asked at any moment, touches neither thread, and brings
    every run from then on within reach of the callback if and only if the read thread
    is not doomed when it is asked.
   */
  lemma StopEndsWorkerIff(c: Config, s: State)
    requires Reachable(Sys(c), s) && !s.r.crashed
    ensures var n := Next(c, s, Stop);
      && n.Some? && n.value == s.(flags := s.flags.(stopAsked := true))
      && ((forall t :: Reachable(From(c, n.value), t) ==> CanEnd(c, t)) <==> !Doomed(c, s.r))
  {
    hide Doomed, CanEnd;
    var t := Take(Sys(c), s, Stop);
    EndsAlwaysIff(c, t);
  }

  /**
    One thread's end is the worker's: once either thread has gone, without any stop,
    every run can be continued to the callback if and only if the read thread is not
    lost; and it is not if it is the one that has gone.
   */
  lemma OneThreadEndsWorkerIff(c: Config, s: State)
    requires Reachable(Sys(c), s) && (s.r.pc.RDone? || s.w.pc.WDone?)
    ensures (forall t :: Reachable(From(c, s), t) ==> CanEnd(c, t)) <==> !Lost(c, s)
    ensures s.r.pc.RDone? ==> !Lost(c, s)
  {
    hide CanEnd, DoomedBy;
    ReachableInv(c, s);
    EndsAlwaysIff(c, s);
  }

  /** A negative answer of the source: nothing more is parsed, and every run can be continued to the callback. */
  lemma FailedReadEndsWorker(c: Config, s: State, status: int)
    requires Reachable(Sys(c), s) && !s.r.crashed && s.r.pc == RReading && status < 0
    ensures var n := Next(c, s, ReadSource(status, []));
      && n.Some?
      && forall t :: Reachable(From(c, n.value), t) ==>
           && t.r.pc in {RGotAlive(status, []), RLeaving, RDone}
           && t.r.parsed == s.r.parsed && CanEnd(c, t)
  {
    hide CanEnd, DoomedBy;
    var n := Take(Sys(c), s, ReadSource(status, []));
    EndsAlwaysIff(c, n);
    var parsed := s.r.parsed;
    forall t | Reachable(From(c, n), t)
      ensures t.r.pc in {RGotAlive(status, []), RLeaving, RDone} && t.r.parsed == parsed
    {
      forall x: State, a | x.r.pc in {RGotAlive(status, []), RLeaving, RDone} && x.r.parsed == parsed
                           && Next(c, x, a).Some?
        ensures var r := Next(c, x, a).value.r; r.pc in {RGotAlive(status, []), RLeaving, RDone} && r.parsed == parsed
      {
        hide Parse, WriterMove, Answer, After;
      }
      Holds(From(c, n), (x: State) => x.r.pc in {RGotAlive(status, []), RLeaving, RDone} && x.r.parsed == parsed, t);
    }
  }

  ghost predicate SendingOver(t: State, written: seq<seq<byte>>, outbox: seq<seq<byte>>) {
    (t.w.pc.WLeaving? || t.w.pc.WDone?) && t.w.written == written && outbox <= t.w.outbox
  }

  /** A negative answer of the sink: nothing more is sent, the element stays queued, and the callback can be reached. */
  lemma FailedSendEndsWorkerIff(c: Config, s: State, status: int)
    requires Reachable(Sys(c), s) && !s.r.crashed && s.w.pc.WSending? && status < 0
    ensures var n := Next(c, s, Send(status));
      && n.Some? && n.value.r == s.r
      && (forall t :: Reachable(From(c, n.value), t) ==> SendingOver(t, s.w.written, s.w.outbox))
      && (CanEnd(c, n.value) <==> !Lost(c, s))
  {
    hide CanEnd, DoomedBy;
    var n := Take(Sys(c), s, Send(status));
    EndsIff(c, n);
    var written, outbox := s.w.written, s.w.outbox;
    forall t | Reachable(From(c, n), t) ensures SendingOver(t, written, outbox) {
      forall x, a | SendingOver(x, written, outbox) && Next(c, x, a).Some?
        ensures SendingOver(Next(c, x, a).value, written, outbox)
      {
        hide ReaderMove, Answer;
      }
      Holds(From(c, n), x => SendingOver(x, written, outbox), t);
    }
  }
}
