/** What a connection worker delivers, and how it stops. */
module WorkerTheorems {
  import opened Bytes
  import opened Frames
  import opened StreamLaws
  import opened Recovery
  import opened Fifo
  import opened Runs
  import opened Worker
  import opened WorkerLaws
  import opened WorkerEnds

  // -------------------------------------------------------------- delivery

  /**
    In every reachable state the datagrams of all bytes parsed so far are those
    delivered, those queued, those parsed and not yet put, and those given up, in
    that order; none is given up before stop is asked or the write thread ends.
    Every byte read has been parsed or is the chunk in hand, until the thread leaves.
   */
  lemma Delivery(c: Config, s: State)
    requires Reachable(Sys(c), s)
    ensures Parse(c.headCheck, s.r.parsed).datagrams == s.r.delivered + s.r.inbox + Pending(s.r.pc) + s.r.lost
    ensures !s.flags.stopAsked && s.flags.writeAlive ==> s.r.lost == []
    ensures s.r.parsed + InHand(s.r.pc) <= s.r.received
    ensures !s.r.pc.RLeaving? && !s.r.pc.RDone? ==> s.r.received == s.r.parsed + InHand(s.r.pc)
    ensures s.r.crashed <==> Parse(c.headCheck, s.r.parsed).fault
    ensures s.r.totalRecv == |s.r.parsed| + if s.r.pc.RParsing? then |s.r.pc.bytes| else 0
  {
    hide Parse;
    ReachableInv(c, s);
  }

  lemma {:induction false} UnwrapAppend(a: seq<seq<byte>>, b: seq<seq<byte>>)
    ensures Unwrap(a + b) == Unwrap(a) + Unwrap(b)
  {
    if a == [] {
      assert a + b == b;
    } else {
      UnwrapAppend(a[1..], b);
      assert (a + b)[1..] == a[1..] + b;
    }
  }

  lemma UnwrapPrefix(a: seq<seq<byte>>, b: seq<seq<byte>>)
    requires a <= b
    ensures Unwrap(a) <= Unwrap(b)
  {
    UnwrapAppend(a, b[|a|..]);
    assert a + b[|a|..] == b;
  }

  /**
    From end to end: while the source gives what an encoder sent, in whatever
    chunks, the consumer gets a prefix of the payloads and the thread never fails;
    once all of it is parsed, every payload is delivered, queued, pending or given up.
   */
  lemma EndToEnd(c: Config, s: State, payloads: seq<seq<byte>>)
    requires c.headCheck <= HEAD_SIZE
    requires Reachable(Sys(c), s) && s.r.received <= EncodeAll(payloads)
    ensures !s.r.crashed
    ensures Unwrap(s.r.delivered) <= SendableOnly(payloads)
    ensures s.r.parsed == EncodeAll(payloads) ==>
      Unwrap(s.r.delivered + s.r.inbox + Pending(s.r.pc) + s.r.lost) == SendableOnly(payloads)
  {
    hide Parse, EncodeAll, Unwrap, SendableOnly;
    Delivery(c, s);
    var all := EncodeAll(payloads);
    assert s.r.parsed <= all;
    ParsePrefix(c.headCheck, s.r.parsed, all[|s.r.parsed|..]);
    assert s.r.parsed + all[|s.r.parsed|..] == all;
    RoundTrip(c.headCheck, payloads);
    assert s.r.delivered <= Parse(c.headCheck, s.r.parsed).datagrams;
    UnwrapPrefix(s.r.delivered, Parse(c.headCheck, all).datagrams);
  }

  /** The sink gets what was enqueued, each element once and in order; only the element just sent is dropped. */
  lemma WritePump(c: Config, s: State)
    requires Reachable(Sys(c), s)
    ensures !s.w.pc.WDropping? ==> s.w.enqueued == s.w.written + s.w.outbox
    ensures s.w.pc.WDropping? ==>
      s.w.outbox != [] && s.w.outbox[0] == s.w.pc.bytes && s.w.enqueued == s.w.written + s.w.outbox[1..]
    ensures s.w.pc.WSending? ==> s.w.outbox != [] && s.w.outbox[0] == s.w.pc.bytes
    ensures s.w.totalSent == |Flat(s.w.written)|
  {
    ReachableInv(c, s);
  }

  /** An empty element at the front is taken for an empty queue and stays there whatever happens. */
  lemma EmptyFrontStays(c: Config, s: State, a: Action)
    requires Reachable(Sys(c), s) && s.w.outbox != [] && s.w.outbox[0] == []
    requires Next(c, s, a).Some?
    ensures var w := Next(c, s, a).value.w; w.outbox != [] && w.outbox[0] == [] && w.written == s.w.written
  {
    assert WriteInv(s.w) by {
      ReachableInv(c, s);
    }
    hide ReaderMove, Answer;
  }

  // -------------------------------------------------------------- shutdown

  /** The callback runs at most once, and not before both threads are gone and say so. */
  lemma CallbackOnceAtEnd(c: Config, s: State)
    requires Reachable(Sys(c), s)
    ensures s.callbacks <= 1
    ensures s.callbacks == 1 || s.flags.stopped ==>
      && s.r.pc.RDone? && s.w.pc.WDone?
      && !s.flags.readAlive && !s.flags.writeAlive && s.flags.stopped
  {
    ReachableInv(c, s);
  }

  /** Once both threads are gone nothing is parsed, queued or sent any more; the consumer takes what is left. */
  lemma QuietAtEnd(c: Config, s: State, a: Action)
    requires Reachable(Sys(c), s) && s.r.pc.RDone? && s.w.pc.WDone? && Next(c, s, a).Some?
    ensures var s' := Next(c, s, a).value;
      && s'.r.pc.RDone? && s'.w.pc.WDone?
      && s'.r.parsed == s.r.parsed && s'.w.written == s.w.written
      && s'.r.delivered + s'.r.inbox + s'.r.lost == s.r.delivered + s.r.inbox + s.r.lost
  {
    hide Parse, Answer, After;
    var s' := Next(c, s, a).value;
    Delivery(c, s);
    var t := Take(Sys(c), s, a);
    Delivery(c, t);
    assert s.r.delivered + s.r.inbox + [] == s.r.delivered + s.r.inbox;
    assert s'.r.delivered + s'.r.inbox + [] == s'.r.delivered + s'.r.inbox;
  }

  /**
    Apart from reading the source, only a put into a full read queue can hold the read
    thread up.  A put is one step here, its sleep included, so this does not see a
    notice lost between the put's size test and its wait: that is `LostNotice.StuckIff`.
   */
  lemma ReaderHeldUpIff(c: Config, s: State)
    requires Reachable(Sys(c), s) && !s.r.crashed && !s.r.pc.RReading?
    ensures Next(c, s, ReaderStep) == None <==>
      s.r.pc.RDone? || (s.r.pc.RPutting? && c.readBlocking && |s.r.inbox| >= c.readReported)
  {
    hide Parse;
    ReachableInv(c, s);
  }

  // ------------------------------------------------- the capacity as coded

  ghost predicate NothingOut(c: Config, s: State) {
    && s.r.inbox == [] && s.r.delivered == []
    && (c.readBlocking && c.readReported == 0 ==>
          s.r.lost == [] && !s.r.pc.RInnerAlive? && !s.r.pc.RInnerStop? && !s.r.pc.ROuterAlive? && !s.r.pc.ROuterStop?)
  }

  lemma NothingOutMove(c: Config, s: State)
    requires c.readCells == 0 || (c.readBlocking && c.readReported == 0)
    requires NothingOut(c, s) && ReaderMove(c, s.flags, s.r).Some?
    ensures NothingOut(c, s.(r := ReaderMove(c, s.flags, s.r).value))
  {
    hide Parse;
  }

  lemma NothingOutInductive(c: Config)
    requires c.readCells == 0 || (c.readBlocking && c.readReported == 0)
    ensures Inductive(Sys(c), s => NothingOut(c, s))
  {
    forall s, a | NothingOut(c, s) && Next(c, s, a).Some? ensures NothingOut(c, Next(c, s, a).value) {
      hide ReaderMove, WriterMove, Answer, After;
      if a.ReaderStep? {
        NothingOutMove(c, s);
      }
    }
  }

  lemma PuttingForGood(c: Config, s: State, t: State)
    requires NoRoom(c) && s.r.pc.RPutting? && Reachable(From(c, s), t)
    ensures t.r.pc == s.r.pc
  {
    var pc := s.r.pc;
    forall x: State, a | x.r.pc == pc && Next(c, x, a).Some? ensures Next(c, x, a).value.r.pc == pc {
      hide Parse, WriterMove, Answer, After;
    }
    Holds(From(c, s), (x: State) => x.r.pc == pc, t);
  }

  /**
    A ring whose `capacity()` answers 0, behind a blocking put: the first datagram
    the parser finds holds the read thread for good.  On no run is anything delivered,
    and neither stop nor anything else brings the worker to its callback.
   */
  lemma NoRoomHangs(c: Config, s: State)
    requires NoRoom(c)
    requires Reachable(Sys(c), s) && Parse(c.headCheck, s.r.parsed).datagrams != []
    ensures s.r.pc.RPutting? && Doomed(c, s.r) && Next(c, s, ReaderStep) == None
    ensures forall t :: Reachable(From(c, s), t) ==>
      t.r.pc == s.r.pc && t.r.delivered == [] && t.r.inbox == [] && t.callbacks == 0
  {
    hide Parse;
    NothingOutInductive(c);
    Holds(Sys(c), s => NothingOut(c, s), s);
    Delivery(c, s);
    ReachableInv(c, s);
    forall t | Reachable(From(c, s), t)
      ensures t.r.pc == s.r.pc && t.r.delivered == [] && t.r.inbox == [] && t.callbacks == 0
    {
      hide Next;
      PuttingForGood(c, s, t);
      DoomedForGood(c, s, t);
      Holds(From(c, s), x => NothingOut(c, x), t);
    }
  }

  predicate CanDeliver(c: Config) {
    c.readCells > 0 && (c.readReported > 0 || !c.readBlocking)
  }

  /** What a source can give, read by read, that holds no header the parser fails at. */
  predicate Sound(c: Config, chunks: seq<seq<byte>>) {
    (forall x :: x in chunks ==> 0 < |x| <= MAX_U16) && !Parse(c.headCheck, Flat(chunks)).fault
  }

  /** The consumer has been given every datagram of the stream `chunks` make up. */
  ghost predicate Delivered(c: Config, s: State, chunks: seq<seq<byte>>) {
    && s.r.received == Flat(chunks) && s.r.parsed == Flat(chunks)
    && s.r.delivered == Parse(c.headCheck, Flat(chunks)).datagrams
  }

  /**
    A datagram can reach the consumer exactly when the queue has a cell, and room
    reported or a put that does not wait for it; and then every list of payloads can
    be delivered whole, and so can every datagram of every stream, however it is cut.
   */
  lemma DeliversIff(c: Config)
    requires c.readQueue && c.headCheck <= HEAD_SIZE
    ensures (exists s :: Reachable(Sys(c), s) && s.r.delivered != []) <==> CanDeliver(c)
    ensures (forall payloads :: exists s ::
              Reachable(Sys(c), s) && s.r.delivered == EncodeEach(SendableOnly(payloads))) <==> CanDeliver(c)
    ensures (forall chunks :: Sound(c, chunks) ==> exists s :: Reachable(Sys(c), s) && Delivered(c, s, chunks))
            <==> CanDeliver(c)
  {
    hide Next, Parse, Encode, Sound;
    if CanDeliver(c) {
      forall payloads ensures exists s ::
        Reachable(Sys(c), s) && s.r.delivered == EncodeEach(SendableOnly(payloads))
      {
        var s := DeliverAll(c, payloads);
      }
      forall chunks | Sound(c, chunks) ensures exists s :: Reachable(Sys(c), s) && Delivered(c, s, chunks) {
        var s := DeliverStream(c, chunks);
      }
    } else {
      NothingOutInductive(c);
      forall s | Reachable(Sys(c), s) ensures s.r.delivered == [] {
        Holds(Sys(c), s => NothingOut(c, s), s);
      }
    }
    OneSendable(c);
  }

  lemma OneSendable(c: Config)
    requires c.headCheck <= HEAD_SIZE
    ensures EncodeEach(SendableOnly([[]])) != []
    ensures Sound(c, [Encode([])]) && Parse(c.headCheck, Flat([Encode([])])).datagrams != []
  {
    var one: seq<seq<byte>> := [[]];
    EncodedChunks(one);
    RoundTrip(c.headCheck, one);
    assert SendableOnly(one) == one;
    assert EncodeEach(one) == [Encode([])];
  }

  /** At the loop head with all of the stream delivered: the state between two reads. */
  ghost predicate Ready(c: Config, s: State, stream: seq<byte>) {
    && Reachable(Sys(c), s) && !s.r.crashed
    && s.flags.writeAlive && !s.flags.stopAsked
    && s.r.pc == RTestAlive && s.r.inbox == [] && s.r.lost == []
    && s.r.parsed == stream && s.r.received == stream
  }

  /** One chunk from the source to the parser's call. */
  lemma ReadOne(c: Config, s: State, stream: seq<byte>, chunk: seq<byte>) returns (s': State)
    requires c.readQueue && Ready(c, s, stream) && 0 < |chunk| <= MAX_U16
    ensures Reachable(Sys(c), s') && s'.flags == s.flags && !s'.r.crashed
    ensures s'.r.pc == RParsing(chunk) && s'.r.inbox == [] && s'.r.lost == []
    ensures s'.r.parsed == stream && s'.r.received == stream + chunk
  {
    hide Parse, WriterMove, Answer, After;
    s' := Take(Sys(c), s, ReaderStep);
    s' := Take(Sys(c), s', ReaderStep);
    s' := Take(Sys(c), s', ReadSource(|chunk|, chunk));
    s' := Take(Sys(c), s', ReaderStep);
    s' := Take(Sys(c), s', ReaderStep);
  }

  /** A datagram waiting to be put is not empty. */
  lemma PendingFits(c: Config, s: State)
    requires Reachable(Sys(c), s) && s.r.pc.RPutting? && !s.r.crashed
    ensures s.r.pc.rest != [] && 0 < |s.r.pc.rest[0]| <= MAX_U16
  {
    hide Parse, WellFormed;
    ReachableInv(c, s);
    Delivery(c, s);
    ParseAccounts(c.headCheck, s.r.parsed);
    MoveFirst(s.r.delivered, s.r.inbox, s.r.pc.rest, s.r.lost);
    WellFormedFits(c.headCheck, s.r.pc.rest[0]);
  }

  /** The consumer takes each datagram as soon as it is put, until the read thread is back at its loop head. */
  lemma {:induction false} PutAll(c: Config, s: State, stream: seq<byte>) returns (s': State)
    requires CanDeliver(c) && Reachable(Sys(c), s) && !s.r.crashed
    requires s.flags.writeAlive && !s.flags.stopAsked && (s.r.pc == RTestAlive || s.r.pc.RPutting?)
    requires s.r.inbox == [] && s.r.lost == [] && s.r.parsed == stream && s.r.received == stream
    ensures Ready(c, s', stream)
    decreases |Pending(s.r.pc)|
  {
    hide Parse, WriterMove;
    if s.r.pc == RTestAlive {
      s' := s;
    } else {
      PendingFits(c, s);
      s' := Take(Sys(c), s, ReaderStep);
      s' := Take(Sys(c), s', Consume);
      s' := LeavePut(c, s');
      s' := PutAll(c, s', stream);
    }
  }

  /** From a put that succeeded to the next datagram, or to the loop head. */
  lemma LeavePut(c: Config, s: State) returns (s': State)
    requires Reachable(Sys(c), s) && !s.r.crashed && s.flags.writeAlive && !s.flags.stopAsked
    requires s.r.pc.RInnerAlive? && s.r.pc.done
    ensures Reachable(Sys(c), s') && s'.flags == s.flags
    ensures s'.r == s.r.(pc := if s.r.pc.rest == [] then RTestAlive else RPutting(s.r.pc.rest))
  {
    hide Parse, WriterMove, Answer, After;
    s' := Take(Sys(c), s, ReaderStep);
    s' := Take(Sys(c), s', ReaderStep);
    s' := Take(Sys(c), s', ReaderStep);
    s' := Take(Sys(c), s', ReaderStep);
  }

  lemma DeliverChunk(c: Config, s: State, stream: seq<byte>, chunk: seq<byte>) returns (s': State)
    requires c.readQueue && CanDeliver(c) && Ready(c, s, stream)
    requires 0 < |chunk| <= MAX_U16 && !Parse(c.headCheck, stream + chunk).fault
    ensures Ready(c, s', stream + chunk)
  {
    hide Parse, WriterMove, Answer, After;
    s' := ReadOne(c, s, stream, chunk);
    s' := Take(Sys(c), s', ReaderStep);
    Delivery(c, s');
    s' := PutAll(c, s', stream + chunk);
  }

  lemma {:induction false} DeliverStream(c: Config, chunks: seq<seq<byte>>) returns (s: State)
    requires c.readQueue && CanDeliver(c) && Sound(c, chunks)
    ensures Ready(c, s, Flat(chunks)) && Delivered(c, s, chunks)
    decreases |chunks|
  {
    hide Parse;
    if chunks == [] {
      s := Init(c);
      ReachStart(Sys(c));
    } else {
      var last := |chunks| - 1;
      FlatSnoc(chunks[..last], chunks[last]);
      assert chunks[..last] + [chunks[last]] == chunks;
      ParsePrefix(c.headCheck, Flat(chunks[..last]), chunks[last]);
      s := DeliverStream(c, chunks[..last]);
      s := DeliverChunk(c, s, Flat(chunks[..last]), chunks[last]);
    }
    Delivery(c, s);
    assert s.r.delivered + [] + [] + [] == s.r.delivered;
  }

  /** The frames of the payloads, each in a read of its own. */
  lemma {:induction false} EncodedChunks(payloads: seq<seq<byte>>)
    ensures var chunks := EncodeEach(SendableOnly(payloads));
      Flat(chunks) == EncodeAll(payloads) && forall x :: x in chunks ==> 0 < |x| <= MAX_U16
  {
    hide Encode;
    if payloads == [] {
    } else {
      EncodedChunks(payloads[1..]);
      EncodeBytes(payloads[0]);
      var rest := SendableOnly(payloads[1..]);
      if Sendable(payloads[0]) {
        assert SendableOnly(payloads)[0] == payloads[0] && SendableOnly(payloads)[1..] == rest;
        assert EncodeEach(SendableOnly(payloads))[1..] == EncodeEach(rest);
      } else {
        assert SendableOnly(payloads) == rest;
      }
    }
  }

  lemma DeliverAll(c: Config, payloads: seq<seq<byte>>) returns (s: State)
    requires c.readQueue && c.headCheck <= HEAD_SIZE && CanDeliver(c)
    ensures Reachable(Sys(c), s) && s.r.delivered == EncodeEach(SendableOnly(payloads))
  {
    hide Parse, Encode;
    EncodedChunks(payloads);
    RoundTrip(c.headCheck, payloads);
    s := DeliverStream(c, EncodeEach(SendableOnly(payloads)));
  }
}
