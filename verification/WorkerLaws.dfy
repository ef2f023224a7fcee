/** What every run of a connection worker keeps. */
module WorkerLaws {
  import opened Bytes
  import opened Frames
  import opened StreamLaws
  import opened Recovery
  import opened Fifo
  import opened Runs
  import opened Worker

  // ------------------------------------------------------------- read side

  /** Datagrams parsed and not yet put. */
  function Pending(r: Reader): seq<seq<byte>> {
    match r
    case RPutting(rest) => rest
    case RInnerAlive(rest, _) => rest
    case RInnerStop(rest, _) => rest
    case ROuterAlive(rest) => rest
    case ROuterStop(rest) => rest
    case _ => []
  }

  /** Bytes read and not yet parsed. */
  function InHand(r: Reader): seq<byte> {
    match r
    case RGotAlive(_, bytes) => bytes
    case RGotStop(_, bytes) => bytes
    case RParsing(bytes) => bytes
    case _ => []
  }

  function Chained(a: seq<seq<byte>>, b: seq<seq<byte>>, c: seq<seq<byte>>, d: seq<seq<byte>>): seq<seq<byte>> {
    a + b + c + d
  }

  function Account(r: ReadSide): seq<seq<byte>> {
    Chained(r.delivered, r.inbox, Pending(r.pc), r.lost)
  }

  /** Every datagram of the bytes parsed so far is delivered, queued, pending, or given up; in that order. */
  ghost predicate Accounted(c: Config, r: ReadSide) {
    Parse(c.headCheck, r.parsed) == Outcome(Account(r), r.residue, r.crashed)
  }

  /** Datagrams are given up only on the way out. */
  ghost predicate LostLast(f: Flags, r: ReadSide) {
    r.lost != [] ==>
      && r.pc in {RTestAlive, RTestStop, RLeaving, RDone}
      && (f.stopAsked || !f.writeAlive)
      && (r.pc == RTestStop ==> f.stopAsked)
  }

  /** The parser has been given the bytes read so far, but for the chunk in hand. */
  ghost predicate BytesKept(r: ReadSide) {
    && r.parsed + InHand(r.pc) <= r.received
    && (r.pc.RLeaving? || r.pc.RDone? || r.received == r.parsed + InHand(r.pc))
    && r.totalRecv == |r.parsed| + (if r.pc.RParsing? then |r.pc.bytes| else 0)
    && (r.pc.RGotAlive? || r.pc.RGotStop? ==> |r.pc.bytes| == if r.pc.status > 0 then r.pc.status else 0)
  }

  lemma ParsingAccounted(c: Config, f: Flags, r: ReadSide)
    requires Accounted(c, r) && LostLast(f, r) && r.pc.RParsing? && !r.crashed
    ensures Accounted(c, ReaderMove(c, f, r).value)
  {
    hide Parse;
    var bytes := r.pc.bytes;
    var o := Parse(c.headCheck, r.residue + bytes);
    ParseSplit(c.headCheck, r.parsed, bytes);
    assert Account(r) == r.delivered + r.inbox;
    var r' := ReaderMove(c, f, r).value;
    assert Pending(r'.pc) == o.datagrams;
    assert Account(r') == Account(r) + o.datagrams;
  }

  lemma MoveFirst(a: seq<seq<byte>>, b: seq<seq<byte>>, c: seq<seq<byte>>, d: seq<seq<byte>>)
    ensures c != [] ==> Chained(a, b + [c[0]], c[1..], d) == Chained(a, b, c, d) && c[0] in Chained(a, b, c, d)
    ensures b != [] ==> Chained(a + [b[0]], b[1..], c, d) == Chained(a, b, c, d) && b[0] in Chained(a, b, c, d)
    ensures d == [] ==> Chained(a, b, [], d + c) == Chained(a, b, c, d)
  {
    if c != [] {
      assert b + [c[0]] + c[1..] == b + c;
      assert a + (b + [c[0]]) + c[1..] == a + b + c;
      assert (a + b + c)[|a + b|] == c[0];
    }
    if b != [] {
      assert a + [b[0]] + b[1..] == a + b;
      assert (a + b + c + d)[|a|] == b[0];
    }
  }

  /** A put that answers 0 changed nothing and is repeated; any other moved the datagram to the queue. */
  lemma PuttingAccounted(c: Config, f: Flags, r: ReadSide)
    requires Accounted(c, r) && r.pc.RPutting? && ReaderMove(c, f, r).Some?
    ensures Accounted(c, ReaderMove(c, f, r).value)
  {
    hide Parse, WellFormed, Chained;
    var rest := r.pc.rest;
    MoveFirst(r.delivered, r.inbox, rest, r.lost);
    ParseAccounts(c.headCheck, r.parsed);
    WellFormedFits(c.headCheck, rest[0]);
    ZeroMeansFull(c.readCells, r.inbox, rest[0]);
  }

  lemma WellFormedFits(k: nat, d: seq<byte>)
    requires WellFormed(k, d)
    ensures 0 < |d| <= MAX_U16
  {
  }

  /** What is pending is given up, and nothing had been given up before. */
  lemma LeavingAccounted(c: Config, f: Flags, r: ReadSide)
    requires Accounted(c, r) && LostLast(f, r) && (r.pc.ROuterAlive? || r.pc.ROuterStop?)
    ensures Accounted(c, ReaderMove(c, f, r).value)
  {
    hide Parse, Chained, Answer, After, Flat;
    MoveFirst(r.delivered, r.inbox, r.pc.rest, r.lost);
    assert r.lost == [] && [] + r.pc.rest == r.pc.rest;
  }

  lemma MovingAccounted(c: Config, f: Flags, r: ReadSide)
    requires Accounted(c, r) && LostLast(f, r) && ReaderMove(c, f, r).Some?
    requires !r.pc.RParsing? && !r.pc.RPutting?
    ensures Accounted(c, ReaderMove(c, f, r).value)
  {
    hide Parse, Chained, Answer, After;
    if r.pc.ROuterAlive? || r.pc.ROuterStop? {
      LeavingAccounted(c, f, r);
    } else {
      assert Pending(ReaderMove(c, f, r).value.pc) == Pending(r.pc);
    }
  }

  ghost predicate ReadInv(c: Config, f: Flags, r: ReadSide) {
    Accounted(c, r) && LostLast(f, r) && BytesKept(r)
  }

  lemma LostKeeps(c: Config, f: Flags, r: ReadSide)
    requires LostLast(f, r) && ReaderMove(c, f, r).Some?
    ensures LostLast(f, ReaderMove(c, f, r).value)
  {
    hide Parse, Answer, After;
  }

  lemma BytesParsed(c: Config, f: Flags, r: ReadSide)
    requires BytesKept(r) && r.pc.RParsing?
    ensures BytesKept(ReaderMove(c, f, r).value)
  {
    hide Parse;
    assert (r.parsed + r.pc.bytes) + [] == r.parsed + r.pc.bytes;
  }

  lemma BytesMoved(c: Config, f: Flags, r: ReadSide)
    requires BytesKept(r) && !r.pc.RParsing? && ReaderMove(c, f, r).Some?
    ensures BytesKept(ReaderMove(c, f, r).value)
  {
    hide Parse, Answer, After;
    var r' := ReaderMove(c, f, r).value;
    assert r'.parsed == r.parsed && r'.received == r.received;
    assert r.parsed + [] == r.parsed <= r.parsed + InHand(r.pc);
    assert InHand(r'.pc) == InHand(r.pc) || InHand(r'.pc) == [];
  }

  lemma BytesKeeps(c: Config, f: Flags, r: ReadSide)
    requires BytesKept(r) && ReaderMove(c, f, r).Some?
    ensures BytesKept(ReaderMove(c, f, r).value)
  {
    hide ReaderMove, BytesKept;
    if r.pc.RParsing? {
      BytesParsed(c, f, r);
    } else {
      BytesMoved(c, f, r);
    }
  }

  lemma ReaderKeeps(c: Config, f: Flags, r: ReadSide)
    requires ReadInv(c, f, r) && !r.crashed && ReaderMove(c, f, r).Some?
    ensures ReadInv(c, f, ReaderMove(c, f, r).value)
  {
    hide ReaderMove, Accounted, LostLast, BytesKept;
    LostKeeps(c, f, r);
    BytesKeeps(c, f, r);
    if r.pc.RParsing? {
      ParsingAccounted(c, f, r);
    } else if r.pc.RPutting? {
      PuttingAccounted(c, f, r);
    } else {
      MovingAccounted(c, f, r);
    }
  }

  /** The consumer's buffer takes the datagram whole. */
  lemma ConsumeAccounted(c: Config, r: ReadSide)
    requires Accounted(c, r) && r.inbox != []
    ensures Answer(c.readCells, r.inbox, Get(MAX_U16)).bytes == r.inbox[0]
    ensures Accounted(c, r.(inbox := r.inbox[1..], delivered := r.delivered + [r.inbox[0]]))
  {
    hide Parse, Chained, WellFormed;
    MoveFirst(r.delivered, r.inbox, Pending(r.pc), r.lost);
    ParseAccounts(c.headCheck, r.parsed);
    WellFormedFits(c.headCheck, r.inbox[0]);
  }

  lemma ConsumeKeeps(c: Config, s: State)
    requires ReadInv(c, s.flags, s.r) && !s.r.crashed
    ensures ReadInv(c, s.flags, Next(c, s, Consume).value.r)
  {
    hide Accounted;
    if s.r.inbox != [] {
      ConsumeAccounted(c, s.r);
    }
  }

  lemma ReadInvStep(c: Config, s: State, a: Action)
    requires ReadInv(c, s.flags, s.r) && Next(c, s, a).Some?
    ensures var s' := Next(c, s, a).value; ReadInv(c, s'.flags, s'.r)
  {
    hide Parse, Chained, ReaderMove, WriterMove, After, Answer;
    match a
    case ReaderStep => ReaderKeeps(c, s.flags, s.r);
    case Consume => ConsumeKeeps(c, s);
    case _ =>
  }

  // ------------------------------------------------------------ write side

  /**
    The sink has had what was enqueued and is no longer queued; between the send
    and the drop the queue still holds the element just sent.
   */
  ghost predicate WriteInv(w: WriteSide) {
    && (forall x :: x in w.outbox ==> |x| <= MAX_U16)
    && (if w.pc.WDropping?
        then w.outbox != [] && w.outbox[0] == w.pc.bytes && w.enqueued == w.written + w.outbox[1..]
        else w.enqueued == w.written + w.outbox)
    && (w.pc.WPeekedAlive? || w.pc.WPeekedStop? || w.pc.WSending? ==>
          w.pc.bytes != [] ==> w.outbox != [] && w.outbox[0] == w.pc.bytes)
    && (w.pc.WSending? || w.pc.WDropping? ==> w.pc.bytes != [])
    && w.totalSent == |Flat(w.written)|
  }

  lemma WriterKeeps(c: Config, f: Flags, w: WriteSide)
    requires WriteInv(w) && WriterMove(c, f, w).Some?
    ensures WriteInv(WriterMove(c, f, w).value)
  {
    if w.pc.WPeeking? && w.outbox != [] {
      assert w.outbox[0] in w.outbox;
    }
  }

  lemma SendKeeps(w: WriteSide, status: int)
    requires WriteInv(w) && w.pc.WSending?
    ensures WriteInv(AfterSend(w, status, w.pc.bytes))
  {
    FlatSnoc(w.written, w.pc.bytes);
    assert w.written + w.outbox == (w.written + [w.outbox[0]]) + w.outbox[1..];
  }

  lemma EnqueueKeeps(c: Config, w: WriteSide, item: seq<byte>)
    requires WriteInv(w) && |item| <= MAX_U16
    ensures WriteInv(AfterEnqueue(c, w, item))
  {
    assert w.outbox != [] ==> (w.outbox + [item])[1..] == w.outbox[1..] + [item];
  }

  lemma WriteInvStep(c: Config, s: State, a: Action)
    requires WriteInv(s.w) && Next(c, s, a).Some?
    ensures WriteInv(Next(c, s, a).value.w)
  {
    hide ReaderMove, WriterMove, AfterSend, AfterEnqueue;
    match a
    case WriterStep => WriterKeeps(c, s.flags, s.w);
    case Send(status) => SendKeeps(s.w, status);
    case Enqueue(item) => EnqueueKeeps(c, s.w, item);
    case _ =>
  }

  // -------------------------------------------------------------- shutdown

  ghost predicate GuardInv(s: State) {
    && (s.flags.readAlive <==> !s.r.pc.RDone?)
    && (s.flags.writeAlive <==> !s.w.pc.WDone?)
    && (s.guard != JoinRead ==> s.r.pc.RDone?)
    && (s.guard in {SetStopped, CallBack, GuardDone} ==> s.w.pc.WDone?)
    && (s.flags.stopped <==> s.guard in {CallBack, GuardDone})
    && s.callbacks == if s.guard == GuardDone then 1 else 0
  }

  lemma GuardInvStep(c: Config, s: State, a: Action)
    requires GuardInv(s) && Next(c, s, a).Some?
    ensures GuardInv(Next(c, s, a).value)
  {
    hide Parse, Answer, After;
  }

  /** There is a datagram to put whenever the thread is about to put one; it crashes only in the parser. */
  ghost predicate LoopInv(r: ReadSide) {
    && (r.pc.RPutting? ==> r.pc.rest != [] || r.crashed)
    && (r.crashed ==> r.pc.RPutting?)
    && ((r.pc.RInnerAlive? || r.pc.RInnerStop?) && !r.pc.done ==> r.pc.rest != [])
  }

  lemma LoopMove(c: Config, f: Flags, r: ReadSide)
    requires LoopInv(r) && !r.crashed && ReaderMove(c, f, r).Some?
    ensures LoopInv(ReaderMove(c, f, r).value)
  {
    hide Parse, Answer, After;
  }

  lemma LoopInvStep(c: Config, s: State, a: Action)
    requires LoopInv(s.r) && Next(c, s, a).Some?
    ensures LoopInv(Next(c, s, a).value.r)
  {
    hide ReaderMove, WriterMove, Answer, After;
    if a.ReaderStep? {
      LoopMove(c, s.flags, s.r);
    }
  }

  ghost predicate Inv(c: Config, s: State) {
    ReadInv(c, s.flags, s.r) && WriteInv(s.w) && GuardInv(s) && LoopInv(s.r)
  }

  lemma InvStep(c: Config, s: State, a: Action)
    requires Inv(c, s) && Next(c, s, a).Some?
    ensures Inv(c, Next(c, s, a).value)
  {
    hide Next, ReadInv, WriteInv, GuardInv, LoopInv;
    ReadInvStep(c, s, a);
    WriteInvStep(c, s, a);
    GuardInvStep(c, s, a);
    LoopInvStep(c, s, a);
  }

  lemma InvInductive(c: Config)
    ensures Inductive(Sys(c), s => Inv(c, s))
  {
    forall s, a | Inv(c, s) && Next(c, s, a).Some? ensures Inv(c, Next(c, s, a).value) {
      hide Next, Inv;
      InvStep(c, s, a);
    }
  }

  lemma ReachableInv(c: Config, s: State)
    requires Reachable(Sys(c), s)
    ensures Inv(c, s)
  {
    InvInductive(c);
    Holds(Sys(c), s => Inv(c, s), s);
  }

  // ---------------------------------------------------------------- later

  /** The worker's runs from `s` on. */
  ghost function From(c: Config, s: State): System<State, Action> {
    Sys(c).(init := s)
  }

  lemma LaterInv(c: Config, s: State, t: State)
    requires Reachable(Sys(c), s) && Reachable(From(c, s), t)
    ensures Reachable(Sys(c), t) && Inv(c, t)
  {
    ReachOn(Sys(c), s, t);
    ReachableInv(c, t);
  }
}
