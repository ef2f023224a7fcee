/** What a connection worker is given to send, and what of it goes out. */
module WorkerProgress {
  import opened Bytes
  import opened Frames
  import opened Fifo
  import opened Runs
  import opened Worker
  import opened WorkerLaws
  import opened WorkerEnds

  // ------------------------------------------------------------ next send

  /** How far the write thread is from sending the element at the front, if that is not empty. */
  function SendRank(pc: Writer): nat {
    match pc
    case WSending(_) => 0
    case WPeekedStop(bytes) => if bytes == [] then 6 else 1
    case WPeekedAlive(bytes) => if bytes == [] then 7 else 2
    case WPeeking => 3
    case WTestStop => 4
    case WTestAlive => 5
    case WDropping(_) => 6
    case _ => 8
  }

  /** Nothing keeps the write thread from its loop. */
  predicate Pumping(c: Config, s: State) {
    && c.writeQueue && !s.flags.stopAsked && s.flags.readAlive && !s.r.crashed
    && !s.w.pc.WLeaving? && !s.w.pc.WDone?
  }

  /** The first element accepted and not yet sent. */
  predicate NextIs(w: WriteSide, n: nat, x: seq<byte>) {
    n == |w.written| < |w.enqueued| && w.enqueued[n] == x
  }

  lemma PumpStep(c: Config, s: State, x: seq<byte>)
    requires Inv(c, s) && Pumping(c, s) && NextIs(s.w, |s.w.written|, x) && x != []
    requires !s.w.pc.WSending?
    ensures Next(c, s, WriterStep).Some?
    ensures var s' := Next(c, s, WriterStep).value;
      && Pumping(c, s') && s'.w.written == s.w.written && s'.w.enqueued == s.w.enqueued
      && SendRank(s'.w.pc) < SendRank(s.w.pc)
  {
    hide ReaderMove, ReadInv, GuardInv, LoopInv;
    assert !s.w.pc.WDropping? ==> s.w.outbox[0] == x;
  }

  lemma SendNext(c: Config, s: State, t: State, x: seq<byte>) returns (u: State)
    requires Reachable(Sys(c), s) && Reachable(From(c, s), t) && Pumping(c, t)
    requires NextIs(t.w, |t.w.written|, x) && x != []
    ensures Reachable(From(c, s), u) && u.w.written == t.w.written + [x]
    ensures Pumping(c, u) && u.w.pc.WDropping? && u.w.enqueued == t.w.enqueued
    decreases SendRank(t.w.pc)
  {
    LaterInv(c, s, t);
    if t.w.pc.WSending? {
      FrontIsNext(c, t, x);
      u := Take(From(c, s), t, Send(1));
    } else {
      hide Next, Inv;
      PumpStep(c, t, x);
      u := Take(From(c, s), t, WriterStep);
      u := SendNext(c, s, u, x);
    }
  }

  lemma FrontIsNext(c: Config, s: State, x: seq<byte>)
    requires Inv(c, s) && NextIs(s.w, |s.w.written|, x) && s.w.pc.WSending?
    ensures s.w.pc.bytes == x
  {
    hide ReadInv, GuardInv, LoopInv;
  }

  lemma EmptyNextStays(c: Config, s: State, a: Action, n: nat)
    requires Inv(c, s) && NextIs(s.w, n, []) && Next(c, s, a).Some?
    ensures NextIs(Next(c, s, a).value.w, n, [])
  {
    hide ReaderMove, ReadInv, GuardInv, LoopInv;
    if s.w.pc.WSending? {
      FrontIsNext(c, s, []);
    }
  }

  lemma EmptyNextForGood(c: Config, s: State, t: State)
    requires Reachable(Sys(c), s) && NextIs(s.w, |s.w.written|, []) && Reachable(From(c, s), t)
    ensures |t.w.written| == |s.w.written|
  {
    var n := |s.w.written|;
    ReachableInv(c, s);
    forall x: State, a | Inv(c, x) && NextIs(x.w, n, []) && Next(c, x, a).Some?
      ensures Inv(c, Next(c, x, a).value) && NextIs(Next(c, x, a).value.w, n, [])
    {
      hide Next, Inv, NextIs;
      InvStep(c, x, a);
      EmptyNextStays(c, x, a, n);
    }
    hide Next, Inv;
    Holds(From(c, s), (x: State) => Inv(c, x) && NextIs(x.w, n, []), t);
  }

  /**
    Exactly which elements go out: while the write thread is in its loop the first
    element not yet sent is sent on some run if and only if it is not empty; while it
    is empty nothing is sent on any.
   */
  lemma NextElementSentIff(c: Config, s: State)
    requires Reachable(Sys(c), s) && Pumping(c, s) && |s.w.written| < |s.w.enqueued|
    ensures var x := s.w.enqueued[|s.w.written|];
      && ((exists t :: Reachable(From(c, s), t) && t.w.written == s.w.written + [x]) <==> x != [])
      && ((exists t :: Reachable(From(c, s), t) && |t.w.written| > |s.w.written|) <==> x != [])
  {
    var x := s.w.enqueued[|s.w.written|];
    if x == [] {
      forall t | Reachable(From(c, s), t) ensures |t.w.written| == |s.w.written| {
        EmptyNextForGood(c, s, t);
      }
    } else {
      ReachStart(From(c, s));
      var t := SendNext(c, s, s, x);
      assert |t.w.written| > |s.w.written|;
    }
  }

  // ---------------------------------------------------------- all that is put

  /**
    A producer's put: it can come at any moment, touches nothing but the write queue,
    and the element is accepted, as the last one, exactly when the queue is not full.
   */
  lemma EnqueueAccepts(c: Config, s: State, item: seq<byte>)
    requires Reachable(Sys(c), s) && !s.r.crashed && |item| <= MAX_U16
    ensures var n := Next(c, s, Enqueue(item));
      var taken := if |s.w.outbox| < c.writeCells then [item] else [];
      && n.Some?
      && n.value.w.enqueued == s.w.enqueued + taken && n.value.w.outbox == s.w.outbox + taken
      && n.value.w.pc == s.w.pc && n.value.w.written == s.w.written
      && n.value.r == s.r && n.value.flags == s.flags && n.value.guard == s.guard
  {
  }

  /**
    Neither oracle is restricted: the source can answer any read with any bytes a read
    can hold, and the sink any send with any status.  A send answered 0 is repeated as
    it is; after a positive answer the element counts as written and is dropped next.
   */
  lemma AnyAnswer(c: Config, s: State, status: int, bytes: seq<byte>)
    requires Reachable(Sys(c), s) && !s.r.crashed
    ensures s.r.pc == RReading && |bytes| <= MAX_U16 && |bytes| == (if status > 0 then status else 0) ==>
      var n := Next(c, s, ReadSource(status, bytes));
      n.Some? && n.value.r.received == s.r.received + bytes && n.value.r.pc == RGotAlive(status, bytes)
    ensures s.w.pc.WSending? ==>
      var n := Next(c, s, Send(status));
      && n.Some? && n.value.w.outbox == s.w.outbox && n.value.r == s.r
      && (status == 0 ==> n.value == s)
      && (status > 0 ==> n.value.w.written == s.w.written + [s.w.pc.bytes] && n.value.w.pc.WDropping?)
  {
    ReachableInv(c, s);
  }

  predicate CanWrite(c: Config) {
    c.writeQueue && c.writeCells > 0
  }

  predicate AllSendable(items: seq<seq<byte>>) {
    forall x :: x in items ==> 0 < |x| <= MAX_U16
  }

  /** Everything put so far has gone out. */
  ghost predicate AllWritten(c: Config, s: State, items: seq<seq<byte>>) {
    && Reachable(Sys(c), s) && Pumping(c, s) && !s.w.pc.WDropping?
    && s.w.written == items && s.w.enqueued == items
  }

  lemma WriteOne(c: Config, s: State, items: seq<seq<byte>>, x: seq<byte>) returns (s': State)
    requires CanWrite(c) && AllWritten(c, s, items) && 0 < |x| <= MAX_U16
    ensures AllWritten(c, s', items + [x])
  {
    assert s.w.outbox == [] by {
      ReachableInv(c, s);
    }
    hide ReaderMove, Answer, Inv;
    EnqueueAccepts(c, s, x);
    var t := Take(Sys(c), s, Enqueue(x));
    assert NextIs(t.w, |t.w.written|, x);
    ReachStart(From(c, t));
    s' := SendNext(c, t, t, x);
    ReachOn(Sys(c), t, s');
    s' := Take(Sys(c), s', WriterStep);
  }

  lemma {:induction false} WriteAll(c: Config, items: seq<seq<byte>>) returns (s: State)
    requires CanWrite(c) && AllSendable(items)
    ensures AllWritten(c, s, items)
    decreases |items|
  {
    if items == [] {
      s := Init(c);
      ReachStart(Sys(c));
    } else {
      hide AllWritten;
      var last := |items| - 1;
      s := WriteAll(c, items[..last]);
      s := WriteOne(c, s, items[..last], items[last]);
      assert items[..last] + [items[last]] == items;
    }
  }

  lemma NothingWritten(c: Config, s: State)
    requires !CanWrite(c) && Reachable(Sys(c), s)
    ensures s.w.written == []
  {
    RunKnown(c, s);
    forall x: State, a | ConfigInv(c, x) && x.w.written == [] && Next(c, x, a).Some? && !c.writeQueue
      ensures ConfigInv(c, Next(c, x, a).value) && Next(c, x, a).value.w.written == []
    {
      hide Parse, ReaderMove, Answer, After;
      hide ConfigInv;
      WriterIdle(c, x);
      ConfigStep(c, x, a);
    }
    forall x: State, a | x.w.enqueued == [] && Next(c, x, a).Some? && c.writeCells == 0
      ensures Next(c, x, a).value.w.enqueued == []
    {
      hide Parse, ReaderMove;
    }
    if c.writeQueue {
      Holds(Sys(c), (x: State) => x.w.enqueued == [], s);
    } else {
      Holds(Sys(c), (x: State) => ConfigInv(c, x) && x.w.written == [], s);
    }
  }

  lemma WriterIdle(c: Config, s: State)
    requires ConfigInv(c, s) && !c.writeQueue
    ensures !s.w.pc.WSending?
  {
  }

  /**
    Exactly when anything put for sending can go out: the worker has a write queue, and
    it has a cell; and then every list of elements, none empty, can be written whole
    and in order.
   */
  lemma WritesIff(c: Config)
    ensures (exists s :: Reachable(Sys(c), s) && s.w.written != []) <==> CanWrite(c)
    ensures (forall items :: AllSendable(items) ==>
              exists s :: Reachable(Sys(c), s) && s.w.written == items && s.w.enqueued == items) <==> CanWrite(c)
  {
    hide Next;
    if CanWrite(c) {
      forall items | AllSendable(items)
        ensures exists s :: Reachable(Sys(c), s) && s.w.written == items && s.w.enqueued == items
      {
        var s := WriteAll(c, items);
      }
    } else {
      forall s | Reachable(Sys(c), s) ensures s.w.written == [] {
        NothingWritten(c, s);
      }
    }
    assert AllSendable([[0]]);
  }
}
