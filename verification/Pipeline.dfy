/**
  The read thread, the read queue and the consumer together, with the queue in its
  small steps: what the worker's own model takes for one queue call is here the
  whole sequence of statements of `LockFree`, interleaved with everything else.
 */
module Pipeline {
  import opened Bytes
  import opened Frames
  import opened Recovery
  import opened Fifo
  import opened Runs
  import opened Worker
  import opened WorkerTheorems
  import WorkerLaws
  import Ring = LockFree

  /** The worker, whose `inbox` is not used, and the ring that takes its place. */
  datatype Both = Both(worker: State, ring: Ring.State)

  datatype Move =
    | Own(a: Action)   // any statement of the worker but a call of the read queue
    | EnterPut         // the read thread calls put
    | ReenterPut       // it comes back from the wait inside
    | PutStatement
    | CallGet          // the consumer calls get
    | GetStatement

  function RingConfig(c: Config): Ring.Config {
    Ring.Config(c.readCells, c.readReported, !c.readBlocking)
  }

  function Start(c: Config): Both {
    Both(Init(c), Ring.Init(RingConfig(c)))
  }

  predicate CallsQueue(s: State, a: Action) {
    a.Consume? || (a.ReaderStep? && s.r.pc.RPutting?)
  }

  /** The read thread executes nothing of its own while its put has not returned. */
  predicate InPut(b: Both, a: Action) {
    (a.ReaderStep? || a.ReadSource?) && b.ring.producer != Ring.Free
  }

  function Then(b: Both, ring: Option<Ring.State>): Option<Both> {
    match ring
    case None => None
    case Some(q) => Some(b.(ring := q))
  }

  function Step(c: Config, b: Both, m: Move): Option<Both> {
    var rc := RingConfig(c);
    if b.worker.r.crashed then None
    else
      match m
      case Own(a) =>
        if CallsQueue(b.worker, a) || InPut(b, a) then None
        else
          (match Next(c, b.worker, a)
           case None => None
           case Some(w) => Some(b.(worker := w)))
      case EnterPut =>
        if b.worker.r.pc.RPutting? && b.worker.r.pc.rest != [] && b.ring.parked == map[]
        then Then(b, Ring.Next(rc, b.ring, Ring.Enter(0, b.worker.r.pc.rest[0])))
        else None
      case ReenterPut => Then(b, Ring.Next(rc, b.ring, Ring.Reenter(0)))
      case PutStatement =>
        (match Ring.Next(rc, b.ring, Ring.PutStep)
         case None => None
         case Some(q) =>
           if |q.log| == |b.ring.log| then Some(b.(ring := q))
           else Some(Both(PutAnswered(b.worker, q.log[|q.log| - 1].reply), q)))
      case CallGet => Then(b, Ring.Next(rc, b.ring, Ring.Call(Get(MAX_U16))))
      case GetStatement =>
        (match Ring.Next(rc, b.ring, Ring.GetStep)
         case None => None
         case Some(q) =>
           if |q.log| == |b.ring.log| then Some(b.(ring := q))
           else Some(Both(GetAnswered(b.worker, q.log[|q.log| - 1].reply), q)))
  }

  /** The read thread goes by what the ring's put really returned. */
  function PutAnswered(w: State, reply: Reply): State {
    if !w.r.pc.RPutting? || w.r.pc.rest == [] then w
    else
      var rest, done := w.r.pc.rest, reply.ret > 0;
      w.(r := w.r.(pc := RInnerAlive(if done then rest[1..] else rest, done)))
  }

  /** The consumer takes the bytes the ring's get really copied out. */
  function GetAnswered(w: State, reply: Reply): State {
    if reply.status == Ok then w.(r := w.r.(delivered := w.r.delivered + [reply.bytes])) else w
  }

  ghost function PipelineSys(c: Config): System<Both, Move> {
    System(Start(c), (b, m) => Step(c, b, m))
  }

  /** The worker with one-step queue calls that the small steps stand for. */
  function Abstract(b: Both): State {
    b.worker.(r := b.worker.r.(inbox := b.ring.queue))
  }

  // ----------------------------------------------------------- invariants

  predicate Puts(r: ReadSide, item: seq<byte>) {
    r.pc.RPutting? && r.pc.rest != [] && r.pc.rest[0] == item
  }

  /** An unanswered put is the read thread's, of the datagram it is at; one past the wait still has room. */
  ghost predicate CallsOk(c: Config, b: Both) {
    var p := b.ring.producer;
    && (p.Holding? ==> b.ring.parked == map[])
    && (p.Holding? && p.stage != Ring.Leave ==> p.t == 0 && Puts(b.worker.r, p.item))
    && (forall t :: t in b.ring.parked ==> t == 0 && Puts(b.worker.r, b.ring.parked[t]))
    && (p.Holding? && p.stage != Ring.Guard && p.stage != Ring.Leave && c.readBlocking ==>
          b.ring.size < c.readReported)
    && (b.ring.consumer.Inside? ==> b.ring.consumer.op == Get(MAX_U16))
  }

  ghost predicate BothInv(c: Config, b: Both) {
    Ring.Inv(RingConfig(c), b.ring) && CallsOk(c, b)
  }

  /** Seen from either side a run of both is a run of that side. */
  ghost predicate Projects(c: Config, b: Both) {
    && CallsOk(c, b)
    && Reachable(Ring.Sys(RingConfig(c)), b.ring)
    && Reachable(Sys(c), Abstract(b))
  }

  /** A statement of the worker's own does the same with the queue in small steps. */
  lemma OwnSimulates(c: Config, b: Both, a: Action)
    requires Step(c, b, Own(a)).Some?
    ensures Next(c, Abstract(b), a) == Some(Abstract(Step(c, b, Own(a)).value))
  {
    hide Parse, Ring.Next, WriterMove;
    if a.ReaderStep? {
      ReaderSimulates(c, b.worker.flags, b.worker.r, b.ring.queue);
    }
  }

  lemma ReaderSimulates(c: Config, f: Flags, r: ReadSide, q: seq<seq<byte>>)
    requires !r.pc.RPutting?
    ensures ReaderMove(c, f, r.(inbox := q)) ==
      match ReaderMove(c, f, r) { case None => None case Some(r') => Some(r'.(inbox := q)) }
  {
    hide Parse, Answer, After;
  }

  lemma OwnKeeps(c: Config, b: Both, a: Action)
    requires CallsOk(c, b) && Step(c, b, Own(a)).Some?
    ensures CallsOk(c, Step(c, b, Own(a)).value)
  {
    hide Ring.Next, ReaderMove, WriterMove;
    if a.ReaderStep? {
      assert b.ring.producer == Ring.Free && b.ring.parked == map[];
    }
  }

  lemma PutKeeps(c: Config, b: Both)
    requires BothInv(c, b) && Step(c, b, PutStatement).Some?
    ensures CallsOk(c, Step(c, b, PutStatement).value)
  {
    hide Ring.CellsOk, Ring.IndexesOk, Ring.LogOk;
  }

  lemma GetKeeps(c: Config, b: Both)
    requires BothInv(c, b) && Step(c, b, GetStatement).Some?
    ensures CallsOk(c, Step(c, b, GetStatement).value)
  {
    hide Ring.CellsOk, Ring.IndexesOk, Ring.LogOk;
  }

  lemma CallKeeps(c: Config, b: Both, m: Move)
    requires CallsOk(c, b) && Step(c, b, m).Some? && (m.EnterPut? || m.ReenterPut? || m.CallGet?)
    ensures CallsOk(c, Step(c, b, m).value) && Abstract(Step(c, b, m).value) == Abstract(b)
  {
  }

  /** The statement at which a put takes effect is the worker's put, answered alike. */
  lemma PutSimulates(c: Config, b: Both)
    requires BothInv(c, b) && Step(c, b, PutStatement).Some?
    ensures var b' := Step(c, b, PutStatement).value;
      Abstract(b') == Abstract(b) || Next(c, Abstract(b), ReaderStep) == Some(Abstract(b'))
  {
    hide Parse, Ring.CellsOk, Ring.IndexesOk, Ring.LogOk;
  }

  lemma GetSimulates(c: Config, b: Both)
    requires BothInv(c, b) && Step(c, b, GetStatement).Some?
    ensures var b' := Step(c, b, GetStatement).value;
      Abstract(b') == Abstract(b) || Next(c, Abstract(b), Consume) == Some(Abstract(b'))
  {
    hide Parse, Ring.CellsOk, Ring.IndexesOk, Ring.LogOk;
  }

  lemma CallsStep(c: Config, b: Both, m: Move)
    requires BothInv(c, b) && Step(c, b, m).Some?
    ensures CallsOk(c, Step(c, b, m).value)
  {
    hide Step, CallsOk, Ring.Inv;
    match m
    case Own(a) => OwnKeeps(c, b, a);
    case PutStatement => PutKeeps(c, b);
    case GetStatement => GetKeeps(c, b);
    case _ => CallKeeps(c, b, m);
  }

  lemma RingStep(c: Config, b: Both, m: Move)
    requires Reachable(Ring.Sys(RingConfig(c)), b.ring) && Step(c, b, m).Some?
    ensures Reachable(Ring.Sys(RingConfig(c)), Step(c, b, m).value.ring)
  {
    hide Next, Ring.Next;
    var rs := Ring.Sys(RingConfig(c));
    match m
    case Own(_) =>
    case EnterPut => var q := Take(rs, b.ring, Ring.Enter(0, b.worker.r.pc.rest[0]));
    case ReenterPut => var q := Take(rs, b.ring, Ring.Reenter(0));
    case PutStatement => var q := Take(rs, b.ring, Ring.PutStep);
    case CallGet => var q := Take(rs, b.ring, Ring.Call(Get(MAX_U16)));
    case GetStatement => var q := Take(rs, b.ring, Ring.GetStep);
  }

  lemma WorkerStep(c: Config, b: Both, m: Move)
    requires BothInv(c, b) && Reachable(Sys(c), Abstract(b)) && Step(c, b, m).Some?
    ensures Reachable(Sys(c), Abstract(Step(c, b, m).value))
  {
    hide Step, Next, BothInv, CallsOk, Ring.Inv;
    var b' := Step(c, b, m).value;
    BothInvParts(c, b);
    var a := match m {
      case Own(a) => a
      case PutStatement => ReaderStep
      case _ => Consume };
    match m {
      case Own(a) => OwnSimulates(c, b, a);
      case PutStatement => PutSimulates(c, b);
      case GetStatement => GetSimulates(c, b);
      case _ => CallKeeps(c, b, m);
    }
    if Abstract(b') != Abstract(b) {
      var w := Take(Sys(c), Abstract(b), a);
    }
  }

  lemma BothInvParts(c: Config, b: Both)
    requires BothInv(c, b)
    ensures CallsOk(c, b)
  {
  }

  lemma ProjectsInductive(c: Config)
    ensures Inductive(PipelineSys(c), b => Projects(c, b))
  {
    ReachStart(Sys(c));
    ReachStart(Ring.Sys(RingConfig(c)));
    assert Abstract(Start(c)) == Init(c);
    forall b, m | Projects(c, b) && Step(c, b, m).Some? ensures Projects(c, Step(c, b, m).value) {
      hide Step, CallsOk, Ring.Inv;
      Ring.ReachableInv(RingConfig(c), b.ring);
      CallsStep(c, b, m);
      RingStep(c, b, m);
      WorkerStep(c, b, m);
    }
  }

  // ------------------------------------------------------------- theorems

  /**
    With the queue in its small steps the worker reaches no state its own model does
    not, so all that is proved of that model is true of both together; and the ring is
    used only as `LockFree` allows.
   */
  lemma SmallStepsRefine(c: Config, b: Both)
    requires Reachable(PipelineSys(c), b)
    ensures Reachable(Sys(c), Abstract(b))
    ensures Reachable(Ring.Sys(RingConfig(c)), b.ring)
  {
    ProjectsInductive(c);
    Holds(PipelineSys(c), b => Projects(c, b), b);
  }

  /** A queue call begun always has a next statement, and one that is due can always begin. */
  lemma CallsGoOn(c: Config, b: Both)
    requires Reachable(PipelineSys(c), b) && !b.worker.r.crashed
    ensures b.ring.producer.Holding? ==> Step(c, b, PutStatement).Some?
    ensures b.ring.consumer.Inside? ==> Step(c, b, GetStatement).Some?
    ensures b.ring.consumer == Ring.Outside ==> Step(c, b, CallGet).Some?
    ensures b.worker.r.pc.RPutting? && b.ring.producer == Ring.Free ==>
      Step(c, b, EnterPut).Some? || Step(c, b, ReenterPut).Some?
  {
    hide Next, Ring.Inv, WorkerLaws.ReadInv, WorkerLaws.WriteInv, WorkerLaws.GuardInv;
    ProjectsInductive(c);
    Holds(PipelineSys(c), b => Projects(c, b), b);
    Ring.NeverStuckInside(RingConfig(c), b.ring);
    WorkerLaws.ReachableInv(c, Abstract(b));
    if b.ring.parked != map[] {
      var t :| t in b.ring.parked;
      assert t == 0;
    }
  }

  /** End to end through the ring's own statements: payloads sent are delivered in order, none missing or doubled. */
  lemma EndToEndThroughRing(c: Config, b: Both, payloads: seq<seq<byte>>)
    requires c.headCheck <= HEAD_SIZE
    requires Reachable(PipelineSys(c), b) && b.worker.r.received <= EncodeAll(payloads)
    ensures !b.worker.r.crashed
    ensures Unwrap(b.worker.r.delivered) <= SendableOnly(payloads)
    ensures b.worker.r.parsed == EncodeAll(payloads) ==>
      Unwrap(b.worker.r.delivered + b.ring.queue + WorkerLaws.Pending(b.worker.r.pc) + b.worker.r.lost)
        == SendableOnly(payloads)
    ensures Ring.ProducerAtCell(b.ring.producer) && Ring.ConsumerAtCell(b.ring.consumer) ==>
      b.ring.indexIn != b.ring.indexOut
  {
    hide EncodeAll, Unwrap, SendableOnly;
    SmallStepsRefine(c, b);
    EndToEnd(c, Abstract(b), payloads);
    Ring.CellsApart(RingConfig(c), b.ring);
  }
}
