/** How much a connection worker still does once it has a reason to end, counted on the run itself. */
module WorkerLate {
  import opened Bytes
  import opened Frames
  import opened Fifo
  import opened Runs
  import opened Worker
  import opened WorkerLaws
  import opened WorkerEnds

  /** Statements the write thread can still execute once it sees that stop is asked. */
  function WriterRank(pc: Writer): nat {
    match pc
    case WDone => 0
    case WLeaving => 1
    case WTestStop => 2
    case WPeekedStop(_) => 2
    case WTestAlive => 3
    case WPeekedAlive(_) => 3
    case WPeeking => 4
    case WDropping(_) => 4
    case WSending(_) => 5
  }

  /** Past its last look at the stop flag before a put. */
  function PutAhead(pc: Reader): nat {
    if pc.RParsing? || pc.RPutting? then 1 else 0
  }

  function SendAhead(pc: Writer): nat {
    if pc.WSending? then 1 else 0
  }

  function ReaderCost(a: Action): nat {
    if a.ReaderStep? || a.ReadSource? then 1 else 0
  }

  /** Sends the sink answers with 0 are not counted. */
  function WriterCost(a: Action): nat {
    if a.WriterStep? || (a.Send? && a.status != 0) then 1 else 0
  }

  /** Datagrams queued so far, whether the consumer has taken them or not. */
  function Queued(s: State): nat {
    |s.r.delivered| + |s.r.inbox|
  }

  /** Past its last look at the flags before a put, with the write thread gone. */
  function HangupPut(pc: Reader): nat {
    if pc.RGotStop? || pc.RParsing? || pc.RPutting? || pc.RInnerStop? || pc.ROuterStop? then 1 else 0
  }

  /** Past its last look at the flags before a send, with the read thread gone. */
  function HangupSend(pc: Writer): nat {
    if pc.WPeekedStop? || pc.WSending? then 1 else 0
  }

  /** Only a put of the read thread queues a datagram, and one at a time. */
  lemma QueuedGrows(c: Config, s: State, a: Action)
    requires Next(c, s, a).Some?
    ensures Queued(Next(c, s, a).value) <= Queued(s) + if a.ReaderStep? && s.r.pc.RPutting? then 1 else 0
  {
    hide Parse, WriterMove;
  }

  lemma StopSpends(c: Config, s: State, a: Action)
    requires s.flags.stopAsked && Next(c, s, a).Some?
    ensures var s' := Next(c, s, a).value;
      && s'.flags.stopAsked
      && ReaderCost(a) + ReaderRank(s'.r.pc) <= ReaderRank(s.r.pc)
      && WriterCost(a) + WriterRank(s'.w.pc) <= WriterRank(s.w.pc)
      && Queued(s') + PutAhead(s'.r.pc) <= Queued(s) + PutAhead(s.r.pc)
      && |s'.w.written| + SendAhead(s'.w.pc) <= |s.w.written| + SendAhead(s.w.pc)
  {
    QueuedGrows(c, s, a);
    hide Parse, Answer, After, Queued;
  }

  lemma WriterGoneSpends(c: Config, s: State, a: Action)
    requires GuardInv(s) && s.w.pc.WDone? && Next(c, s, a).Some?
    ensures var s' := Next(c, s, a).value;
      && s'.w.pc.WDone?
      && ReaderCost(a) + HangupRank(s'.r.pc) <= HangupRank(s.r.pc)
      && Queued(s') + HangupPut(s'.r.pc) <= Queued(s) + HangupPut(s.r.pc)
  {
    QueuedGrows(c, s, a);
    hide Parse, Answer, After, Queued;
  }

  lemma ReaderGoneSpends(c: Config, s: State, a: Action)
    requires GuardInv(s) && s.r.pc.RDone? && Next(c, s, a).Some?
    ensures var s' := Next(c, s, a).value;
      && s'.r.pc.RDone?
      && WriterCost(a) + WriterHangupRank(s'.w.pc) <= WriterHangupRank(s.w.pc)
      && |s'.w.written| + HangupSend(s'.w.pc) <= |s.w.written| + HangupSend(s.w.pc)
  {
    hide Parse, Answer, After;
  }

  /** A measure no step of a run raises, and of which every step pays what it costs. */
  lemma Pays(
    c: Config, s: State, trace: seq<Action>, t: State, inv: State -> bool, m: State -> nat, cost: Action -> nat)
    requires Exec(From(c, s), trace) == Some(t) && inv(s)
    requires forall x, a :: inv(x) && Next(c, x, a).Some? ==>
      inv(Next(c, x, a).value) && cost(a) + m(Next(c, x, a).value) <= m(x)
    ensures Total(cost, trace) + m(t) <= m(s)
  {
    hide Next;
    forall x, a | inv(x) && From(c, s).next(x, a).Some?
      ensures inv(From(c, s).next(x, a).value) && cost(a) + m(From(c, s).next(x, a).value) <= m(x)
    {
      assert From(c, s).next(x, a) == Next(c, x, a);
    }
    Spends(From(c, s), inv, m, cost, trace);
  }

  /**
    Counted on the run itself: after a stop the read thread executes at most nine
    statements and the write thread at most five; one more datagram is queued at most,
    and one more element sent, and only by a thread past its last look at the flag.
   */
  lemma LateWork(c: Config, s: State, trace: seq<Action>, t: State)
    requires s.flags.stopAsked && Exec(From(c, s), trace) == Some(t)
    ensures Total(ReaderCost, trace) + ReaderRank(t.r.pc) <= ReaderRank(s.r.pc) <= 9
    ensures Total(WriterCost, trace) + WriterRank(t.w.pc) <= WriterRank(s.w.pc) <= 5
    ensures Queued(t) + PutAhead(t.r.pc) <= Queued(s) + PutAhead(s.r.pc) <= Queued(s) + 1
    ensures |t.w.written| + SendAhead(t.w.pc) <= |s.w.written| + SendAhead(s.w.pc) <= |s.w.written| + 1
  {
    forall x: State, a | x.flags.stopAsked && Next(c, x, a).Some?
      ensures var y := Next(c, x, a).value;
        && y.flags.stopAsked
        && ReaderCost(a) + ReaderRank(y.r.pc) <= ReaderRank(x.r.pc)
        && WriterCost(a) + WriterRank(y.w.pc) <= WriterRank(x.w.pc)
        && Queued(y) + PutAhead(y.r.pc) <= Queued(x) + PutAhead(x.r.pc)
        && |y.w.written| + SendAhead(y.w.pc) <= |x.w.written| + SendAhead(x.w.pc)
    {
      hide *;
      StopSpends(c, x, a);
    }
    hide Next, Queued, ReaderCost, WriterCost;
    var stopped := (x: State) => x.flags.stopAsked;
    Pays(c, s, trace, t, stopped, (x: State) => ReaderRank(x.r.pc), ReaderCost);
    Pays(c, s, trace, t, stopped, (x: State) => WriterRank(x.w.pc), WriterCost);
    Pays(c, s, trace, t, stopped, (x: State) => Queued(x) + PutAhead(x.r.pc), _ => 0);
    Pays(c, s, trace, t, stopped, (x: State) => |x.w.written| + SendAhead(x.w.pc), _ => 0);
  }

  /** The same after one thread has gone: seven statements and one datagram, or five statements and one element. */
  lemma LateWorkAfterHangup(c: Config, s: State, trace: seq<Action>, t: State)
    requires Reachable(Sys(c), s) && Exec(From(c, s), trace) == Some(t)
    ensures s.w.pc.WDone? ==>
      && Total(ReaderCost, trace) + HangupRank(t.r.pc) <= HangupRank(s.r.pc) <= 7
      && Queued(t) + HangupPut(t.r.pc) <= Queued(s) + HangupPut(s.r.pc) <= Queued(s) + 1
    ensures s.r.pc.RDone? ==>
      && Total(WriterCost, trace) + WriterHangupRank(t.w.pc) <= WriterHangupRank(s.w.pc) <= 5
      && |t.w.written| + HangupSend(t.w.pc) <= |s.w.written| + HangupSend(s.w.pc) <= |s.w.written| + 1
  {
    ReachableInv(c, s);
    hide Next, Queued, ReaderCost, WriterCost, GuardInv;
    if s.w.pc.WDone? {
      var gone := (x: State) => GuardInv(x) && x.w.pc.WDone?;
      forall x, a | gone(x) && Next(c, x, a).Some?
        ensures var y := Next(c, x, a).value;
          && gone(y)
          && ReaderCost(a) + HangupRank(y.r.pc) <= HangupRank(x.r.pc)
          && Queued(y) + HangupPut(y.r.pc) <= Queued(x) + HangupPut(x.r.pc)
      {
        GuardInvStep(c, x, a);
        WriterGoneSpends(c, x, a);
      }
      Pays(c, s, trace, t, gone, (x: State) => HangupRank(x.r.pc), ReaderCost);
      Pays(c, s, trace, t, gone, (x: State) => Queued(x) + HangupPut(x.r.pc), _ => 0);
    }
    if s.r.pc.RDone? {
      var gone := (x: State) => GuardInv(x) && x.r.pc.RDone?;
      forall x, a | gone(x) && Next(c, x, a).Some?
        ensures var y := Next(c, x, a).value;
          && gone(y)
          && WriterCost(a) + WriterHangupRank(y.w.pc) <= WriterHangupRank(x.w.pc)
          && |y.w.written| + HangupSend(y.w.pc) <= |x.w.written| + HangupSend(x.w.pc)
      {
        GuardInvStep(c, x, a);
        ReaderGoneSpends(c, x, a);
      }
      Pays(c, s, trace, t, gone, (x: State) => WriterHangupRank(x.w.pc), WriterCost);
      Pays(c, s, trace, t, gone, (x: State) => |x.w.written| + HangupSend(x.w.pc), _ => 0);
    }
  }
}
