/**
  `ConnectionWorker`: the thread that reads, the thread that writes, the guard that
  joins both, and everybody outside, in any interleaving.

  Reading the source and writing to the sink are oracles; the sink takes a buffer
  whole or not at all.  The queues are the bounded queues `LockFree` refines, so a
  queue call is one step here.  Each load of an atomic flag is a step of its own.
 */
module Worker {
  import opened Bytes
  import opened Frames
  import opened Fifo
  import opened Runs

  datatype Config = Config(
    headCheck: nat,       // the parser's sizeof(head)
    readQueue: bool,      // m_queue_for_reading_data_from_source is set
    readCells: nat,
    readReported: nat,    // what capacity() of the read queue answers
    readBlocking: bool,   // its put waits without a time limit
    writeQueue: bool,     // m_queue_for_writing_data_to_source is set
    writeCells: nat)

  /** The statement the read thread executes next. */
  datatype Reader =
    | RTestAlive                                  // while: m_write_thread_alive
    | RTestStop                                   // while: m_stop_asked
    | RReading                                    // read_data_from_source
    | RGotAlive(status: int, bytes: seq<byte>)    // after the read: status, m_write_thread_alive
    | RGotStop(status: int, bytes: seq<byte>)     // after the read: m_stop_asked
    | RParsing(bytes: seq<byte>)                  // m_parser->put
    | RPutting(rest: seq<seq<byte>>)              // queue->put of the first of rest
    | RInnerAlive(rest: seq<seq<byte>>, done: bool)
    | RInnerStop(rest: seq<seq<byte>>, done: bool)
    | ROuterAlive(rest: seq<seq<byte>>)
    | ROuterStop(rest: seq<seq<byte>>)
    | RLeaving                                    // m_read_thread_alive = false
    | RDone

  /** The statement the write thread executes next. */
  datatype Writer =
    | WTestAlive
    | WTestStop
    | WPeeking
    | WPeekedAlive(bytes: seq<byte>)
    | WPeekedStop(bytes: seq<byte>)
    | WSending(bytes: seq<byte>)                  // write_data_to_source, again while it answers 0
    | WDropping(bytes: seq<byte>)                 // queue->get(..., 0)
    | WLeaving
    | WDone

  datatype Guard = JoinRead | JoinWrite | SetStopped | CallBack | GuardDone

  /** The atomic flags the threads share. */
  datatype Flags = Flags(readAlive: bool, writeAlive: bool, stopAsked: bool, stopped: bool)

  datatype ReadSide = ReadSide(
    pc: Reader,
    crashed: bool,                 // an exception left the thread and ended the process
    residue: seq<byte>,            // the parser's buffer
    inbox: seq<seq<byte>>,         // the read queue
    totalRecv: nat,
    // histories
    received: seq<byte>,           // bytes the source gave
    parsed: seq<byte>,             // bytes given to the parser
    delivered: seq<seq<byte>>,     // datagrams the consumer took
    lost: seq<seq<byte>>)          // datagrams given up on the way out

  datatype WriteSide = WriteSide(
    pc: Writer,
    outbox: seq<seq<byte>>,        // the write queue
    totalSent: nat,
    // histories
    enqueued: seq<seq<byte>>,      // elements the write queue accepted
    written: seq<seq<byte>>)       // elements the sink took

  datatype State = State(flags: Flags, r: ReadSide, w: WriteSide, guard: Guard, callbacks: nat)

  datatype Action =
    | ReaderStep
    | ReadSource(status: int, bytes: seq<byte>)
    | WriterStep
    | Send(status: int)
    | GuardStep
    | Stop
    | Consume
    | Enqueue(item: seq<byte>)

  function Init(c: Config): State {
    State(
      Flags(true, true, false, false),
      ReadSide(RTestAlive, false, [], [], 0, [], [], [], []),
      WriteSide(WTestAlive, [], 0, [], []),
      JoinRead, 0)
  }

  function Next(c: Config, s: State, a: Action): Option<State> {
    if s.r.crashed then None
    else
      match a
      case ReaderStep =>
        (match ReaderMove(c, s.flags, s.r)
         case None => None
         case Some(r) =>
           Some(s.(r := r, flags := s.flags.(readAlive := s.flags.readAlive && !s.r.pc.RLeaving?))))
      case ReadSource(status, bytes) =>
        if s.r.pc == RReading && |bytes| == (if status > 0 then status else 0) && |bytes| <= MAX_U16
        then Some(s.(r := s.r.(pc := RGotAlive(status, bytes), received := s.r.received + bytes)))
        else None
      case WriterStep =>
        (match WriterMove(c, s.flags, s.w)
         case None => None
         case Some(w) =>
           Some(s.(w := w, flags := s.flags.(writeAlive := s.flags.writeAlive && !s.w.pc.WLeaving?))))
      case Send(status) =>
        if s.w.pc.WSending? then Some(s.(w := AfterSend(s.w, status, s.w.pc.bytes))) else None
      case GuardStep => AfterGuard(s)
      case Stop => Some(s.(flags := s.flags.(stopAsked := true)))
      case Consume =>
        var reply := Answer(c.readCells, s.r.inbox, Get(MAX_U16));
        if reply.status == Ok
        then Some(s.(r := s.r.(inbox := After(c.readCells, s.r.inbox, Get(MAX_U16)),
                               delivered := s.r.delivered + [reply.bytes])))
        else Some(s)
      case Enqueue(item) =>
        if |item| > MAX_U16 then None
        else Some(s.(w := AfterEnqueue(c, s.w, item)))
  }

  function ReaderMove(c: Config, f: Flags, r: ReadSide): Option<ReadSide> {
    match r.pc
    case RTestAlive => Some(r.(pc := if !c.readQueue || !f.writeAlive then RLeaving else RTestStop))
    case RTestStop => Some(r.(pc := if f.stopAsked then RLeaving else RReading))
    case RReading => None
    case RGotAlive(status, bytes) =>
      Some(r.(pc := if status < 0 || !f.writeAlive then RLeaving else RGotStop(status, bytes)))
    case RGotStop(status, bytes) =>
      if f.stopAsked then Some(r.(pc := RLeaving))
      else if status <= 0 then Some(r.(pc := RTestAlive))
      else Some(r.(pc := RParsing(bytes), totalRecv := r.totalRecv + status))
    case RParsing(bytes) =>
      var o := Parse(c.headCheck, r.residue + bytes);
      Some(r.(pc := if o.datagrams == [] && !o.fault then RTestAlive else RPutting(o.datagrams),
              residue := o.residue, parsed := r.parsed + bytes, crashed := o.fault))
    case RPutting(rest) =>
      if rest == [] || (c.readBlocking && |r.inbox| >= c.readReported) then None
      else
        var done := Answer(c.readCells, r.inbox, Put(rest[0])).ret > 0;
        Some(r.(pc := RInnerAlive(if done then rest[1..] else rest, done),
                inbox := After(c.readCells, r.inbox, Put(rest[0]))))
    case RInnerAlive(rest, done) =>
      Some(r.(pc := if !f.writeAlive then ROuterAlive(rest) else RInnerStop(rest, done)))
    case RInnerStop(rest, done) =>
      Some(r.(pc := if f.stopAsked || done then ROuterAlive(rest) else RPutting(rest)))
    case ROuterAlive(rest) =>
      if !f.writeAlive then Some(r.(pc := RTestAlive, lost := r.lost + rest))
      else Some(r.(pc := ROuterStop(rest)))
    case ROuterStop(rest) =>
      if f.stopAsked then Some(r.(pc := RTestAlive, lost := r.lost + rest))
      else Some(r.(pc := if rest == [] then RTestAlive else RPutting(rest)))
    case RLeaving => Some(r.(pc := RDone))
    case RDone => None
  }

  function WriterMove(c: Config, f: Flags, w: WriteSide): Option<WriteSide> {
    match w.pc
    case WTestAlive => Some(w.(pc := if !c.writeQueue || !f.readAlive then WLeaving else WTestStop))
    case WTestStop => Some(w.(pc := if f.stopAsked then WLeaving else WPeeking))
    case WPeeking => Some(w.(pc := WPeekedAlive(Answer(c.writeCells, w.outbox, Peek(MAX_U16)).bytes)))
    case WPeekedAlive(bytes) => Some(w.(pc := if !f.readAlive then WLeaving else WPeekedStop(bytes)))
    case WPeekedStop(bytes) =>
      Some(w.(pc := if f.stopAsked then WLeaving else if bytes == [] then WTestAlive else WSending(bytes)))
    case WSending(_) => None
    case WDropping(_) => Some(w.(pc := WTestAlive, outbox := After(c.writeCells, w.outbox, Get(0))))
    case WLeaving => Some(w.(pc := WDone))
    case WDone => None
  }

  /** 0: not now, try again; negative: give up; positive: all of it went out. */
  function AfterSend(w: WriteSide, status: int, bytes: seq<byte>): WriteSide {
    if status == 0 then w
    else if status < 0 then w.(pc := WLeaving)
    else w.(pc := WDropping(bytes), written := w.written + [bytes], totalSent := w.totalSent + |bytes|)
  }

  /** A producer's put; refused when the write queue is full. */
  function AfterEnqueue(c: Config, w: WriteSide, item: seq<byte>): WriteSide {
    if Answer(c.writeCells, w.outbox, Put(item)).status == Ok
    then w.(outbox := After(c.writeCells, w.outbox, Put(item)), enqueued := w.enqueued + [item])
    else w
  }

  function AfterGuard(s: State): Option<State> {
    match s.guard
    case JoinRead => if s.r.pc == RDone then Some(s.(guard := JoinWrite)) else None
    case JoinWrite => if s.w.pc == WDone then Some(s.(guard := SetStopped)) else None
    case SetStopped => Some(s.(guard := CallBack, flags := s.flags.(stopped := true)))
    case CallBack => Some(s.(guard := GuardDone, callbacks := s.callbacks + 1))
    case GuardDone => None
  }

  ghost function Sys(c: Config): System<State, Action> {
    System(Init(c), (s, a) => Next(c, s, a))
  }
}
