/**
  `NoBlockRead(BlockWrite(Ring))`, the queue the program builds: puts take the
  mutex one after the other, the one consumer takes nothing, and the two sides
  meet only in the atomic `m_size`.

  Every statement of `RingQueue::put`, `get` and `peek` that touches shared memory
  is a step of its own, in any interleaving.  `timed` selects the timed write
  decorator, `reported` is what `capacity()` answers (0 as coded).
 */
module LockFree {
  import opened Bytes
  import opened Fifo
  import opened RingWindow
  import opened Runs

  datatype Config = Config(cells: nat, reported: nat, timed: bool)

  /** The statement the holder of the mutex executes next. */
  datatype PutStage =
    | Guard    // wait_function_put
    | TestIn   // m_size < m_total_count
    | CopyIn   // memcpy into the cell at m_index_in
    | MarkIn   // has_data, data_size
    | BumpIn   // m_index_in++
    | WrapIn   // if m_index_in == m_total_count
    | Publish  // m_size++
    | Leave    // notify and unlock

  datatype Producer = Free | Holding(t: nat, item: seq<byte>, waited: bool, stage: PutStage)

  /** The statement the consumer executes next. */
  datatype GetStage =
    | TestOut   // if m_size
    | CopyOut   // has_data, memcpy out of the cell at m_index_out
    | ClearOut  // has_data, data_size
    | BumpOut   // m_index_out++
    | WrapOut   // if m_index_out == m_total_count
    | Release   // m_size--

  datatype Consumer = Outside | Inside(op: Op, got: seq<byte>, stage: GetStage)

  datatype State = State(
    cells: seq<Cell>,
    indexIn: nat,
    indexOut: nat,
    size: nat,
    producer: Producer,
    parked: map<nat, seq<byte>>,  // producers asleep in the wait, with what they want to put
    consumer: Consumer,
    queue: seq<seq<byte>>,        // history: the queue of published items
    front: nat,                   // history: where that queue starts
    log: seq<Entry>)              // history: every call with the reply it really gave

  datatype Action =
    | Enter(t: nat, item: seq<byte>)
    | Reenter(t: nat)
    | PutStep
    | Call(op: Op)
    | GetStep

  function Init(c: Config): State {
    State(seq(c.cells, _ => EMPTY_CELL), 0, 0, 0, Free, map[], Outside, [], 0, [])
  }

  function Next(c: Config, s: State, a: Action): Option<State> {
    match a
    case Enter(t, item) =>
      if s.producer == Free && t !in s.parked
      then Some(s.(producer := Holding(t, item, false, Guard))) else None
    case Reenter(t) =>
      if s.producer == Free && t in s.parked
      then Some(s.(producer := Holding(t, s.parked[t], true, Guard), parked := s.parked - {t})) else None
    case PutStep => if s.producer == Free then None else AfterPutStep(c, s, s.producer)
    case Call(op) =>
      if s.consumer == Outside && !op.Put? then Some(s.(consumer := Inside(op, [], TestOut))) else None
    case GetStep => if s.consumer == Outside then None else AfterGetStep(c, s, s.consumer)
  }

  function AfterPutStep(c: Config, s: State, p: Producer): Option<State>
    requires p.Holding?
  {
    var n := |s.cells|;
    match p.stage
    case Guard =>
      if s.size >= c.reported && !(c.timed && p.waited)
      then Some(s.(producer := Free, parked := s.parked[p.t := p.item]))
      else Some(s.(producer := p.(stage := TestIn)))
    case TestIn =>
      if s.size < n then Some(s.(producer := p.(stage := CopyIn)))
      else Some(s.(producer := p.(stage := Leave), log := s.log + [Entry(Put(p.item), Reply([], 0, Full))]))
    case CopyIn =>
      if s.indexIn < n
      then Some(s.(producer := p.(stage := MarkIn), cells := s.cells[s.indexIn := Cell(false, p.item)]))
      else None
    case MarkIn =>
      if s.indexIn < n
      then Some(s.(producer := p.(stage := BumpIn), cells := s.cells[s.indexIn := Cell(true, p.item)]))
      else None
    case BumpIn => Some(s.(producer := p.(stage := WrapIn), indexIn := s.indexIn + 1))
    case WrapIn => Some(s.(producer := p.(stage := Publish), indexIn := if s.indexIn == n then 0 else s.indexIn))
    case Publish =>
      Some(s.(producer := p.(stage := Leave), size := s.size + 1, queue := s.queue + [p.item],
              log := s.log + [Entry(Put(p.item), Reply([], |p.item|, Ok))]))
    case Leave => Some(s.(producer := Free))
  }

  function AfterGetStep(c: Config, s: State, k: Consumer): Option<State>
    requires k.Inside?
  {
    var n := |s.cells|;
    match k.stage
    case TestOut =>
      if s.size > 0 then Some(s.(consumer := k.(stage := CopyOut)))
      else Some(s.(consumer := Outside, log := s.log + [Entry(k.op, Reply([], 0, Empty))]))
    case CopyOut =>
      if s.indexOut >= n || k.op.Put? then None
      else
        var cell := s.cells[s.indexOut];
        var got := if cell.hasData then Prefix(cell.item, k.op.size) else [];
        if k.op.Peek? then Some(s.(consumer := Outside, log := s.log + [Entry(k.op, Reply(got, |got|, Ok))]))
        else Some(s.(consumer := k.(got := got, stage := if cell.hasData then ClearOut else BumpOut)))
    case ClearOut =>
      if s.indexOut < n
      then Some(s.(consumer := k.(stage := BumpOut), cells := s.cells[s.indexOut := EMPTY_CELL]))
      else None
    case BumpOut => Some(s.(consumer := k.(stage := WrapOut), indexOut := s.indexOut + 1))
    case WrapOut => Some(s.(consumer := k.(stage := Release), indexOut := if s.indexOut == n then 0 else s.indexOut))
    case Release =>
      Some(s.(consumer := Outside, size := if s.size > 0 then s.size - 1 else 0,
              queue := if s.queue == [] then [] else s.queue[1..], front := Wrap(n, s.front + 1),
              log := s.log + [Entry(k.op, Reply(k.got, |k.got|, Ok))]))
  }

  /** How many statements a put, or a get, still has to go. */
  function StageRank(stage: PutStage): nat {
    match stage
    case Guard => 7
    case TestIn => 6
    case CopyIn => 5
    case MarkIn => 4
    case BumpIn => 3
    case WrapIn => 2
    case Publish => 1
    case Leave => 0
  }

  function GetRank(stage: GetStage): nat {
    match stage
    case TestOut => 5
    case CopyOut => 4
    case ClearOut => 3
    case BumpOut => 2
    case WrapOut => 1
    case Release => 0
  }

  ghost function Sys(c: Config): System<State, Action> {
    System(Init(c), (s, a) => Next(c, s, a))
  }

  // ----------------------------------------------------------- invariants

  predicate Writing(p: Producer) {
    p.Holding? && p.stage in {CopyIn, MarkIn, BumpIn, WrapIn, Publish}
  }

  predicate Reading(k: Consumer) {
    k.Inside? && k.stage != TestOut
  }

  /** The cell at distance `d` from the front, with both sides' unfinished work in it. */
  function Actual(s: State, d: nat): Cell {
    if d == 0 && s.consumer.Inside? && s.consumer.stage in {BumpOut, WrapOut, Release} then EMPTY_CELL
    else if d == |s.queue| && s.producer.Holding? && s.producer.stage in {MarkIn, BumpIn, WrapIn, Publish}
    then Cell(s.producer.stage != MarkIn, s.producer.item)
    else Expected(s.queue, d)
  }

  ghost predicate SizesOk(c: Config, s: State) {
    && |s.cells| == c.cells
    && s.size == |s.queue| <= c.cells
    && (if c.cells == 0 then s.front == 0 else s.front < c.cells)
    && (Writing(s.producer) ==> s.size < c.cells)
    && (Reading(s.consumer) ==> s.size > 0)
  }

  ghost predicate CellsOk(s: State) {
    forall i :: 0 <= i < |s.cells| && s.front < |s.cells| ==>
      s.cells[i] == Actual(s, Distance(|s.cells|, s.front, i))
  }

  ghost predicate IndexesOk(c: Config, s: State) {
    var n := c.cells;
    var i := Wrap(n, s.front + |s.queue|);
    && s.indexIn == (
         if s.producer.Holding? && s.producer.stage == WrapIn then i + 1
         else if s.producer.Holding? && s.producer.stage == Publish then Wrap(n, i + 1)
         else i)
    && s.indexOut == (
         if s.consumer.Inside? && s.consumer.stage == WrapOut then s.front + 1
         else if s.consumer.Inside? && s.consumer.stage == Release then Wrap(n, s.front + 1)
         else s.front)
  }

  ghost predicate ConsumerOk(s: State) {
    s.consumer.Inside? ==>
      && !s.consumer.op.Put?
      && (s.consumer.stage in {ClearOut, BumpOut, WrapOut, Release} ==>
            s.consumer.op.Get? && s.queue != [] && s.consumer.got == Prefix(s.queue[0], s.consumer.op.size))
  }

  ghost predicate LogOk(c: Config, s: State) {
    Legal(c.cells, s.log) && Replay(c.cells, s.log) == s.queue
  }

  ghost predicate Inv(c: Config, s: State) {
    SizesOk(c, s) && CellsOk(s) && IndexesOk(c, s) && ConsumerOk(s) && LogOk(c, s)
  }

  lemma SizesStep(c: Config, s: State, a: Action)
    requires SizesOk(c, s) && Next(c, s, a).Some?
    ensures SizesOk(c, Next(c, s, a).value)
  {
  }

  lemma PutIndexes(c: Config, s: State)
    requires SizesOk(c, s) && IndexesOk(c, s) && Next(c, s, PutStep).Some?
    ensures IndexesOk(c, Next(c, s, PutStep).value)
  {
  }

  lemma GetIndexes(c: Config, s: State)
    requires SizesOk(c, s) && IndexesOk(c, s) && Next(c, s, GetStep).Some?
    ensures IndexesOk(c, Next(c, s, GetStep).value)
  {
  }

  lemma IndexesStep(c: Config, s: State, a: Action)
    requires SizesOk(c, s) && IndexesOk(c, s) && Next(c, s, a).Some?
    ensures IndexesOk(c, Next(c, s, a).value)
  {
    match a
    case PutStep => PutIndexes(c, s);
    case GetStep => GetIndexes(c, s);
    case _ =>
  }

  /** The consumer reads the front cell, and it has data. */
  lemma FrontHasData(c: Config, s: State)
    requires SizesOk(c, s) && CellsOk(s) && IndexesOk(c, s)
    requires s.consumer.Inside? && s.consumer.stage in {CopyOut, ClearOut}
    ensures s.indexOut < c.cells && s.cells[s.indexOut] == Cell(true, s.queue[0])
  {
    assert Distance(c.cells, s.front, s.indexOut) == 0;
  }

  lemma ConsumerStep(c: Config, s: State, a: Action)
    requires SizesOk(c, s) && CellsOk(s) && IndexesOk(c, s) && ConsumerOk(s) && Next(c, s, a).Some?
    ensures ConsumerOk(Next(c, s, a).value)
  {
    hide CellsOk, IndexesOk;
    if a.GetStep? && s.consumer.stage == CopyOut {
      FrontHasData(c, s);
    }
  }

  /** The producer's copy goes into the first cell behind the queue. */
  lemma CellsCopied(c: Config, s: State)
    requires SizesOk(c, s) && CellsOk(s) && IndexesOk(c, s) && s.producer.Holding?
    requires s.producer.stage in {CopyIn, MarkIn}
    ensures CellsOk(Next(c, s, PutStep).value)
  {
    assert Distance(c.cells, s.front, s.indexIn) == |s.queue|;
  }

  /** Publishing turns the copied cell into the last cell of the queue. */
  lemma CellsPublished(c: Config, s: State)
    requires SizesOk(c, s) && CellsOk(s) && s.producer.Holding? && s.producer.stage == Publish
    ensures CellsOk(Next(c, s, PutStep).value)
  {
  }

  lemma CellsCleared(c: Config, s: State)
    requires SizesOk(c, s) && CellsOk(s) && IndexesOk(c, s) && s.consumer.Inside?
    requires s.consumer.stage == ClearOut
    ensures CellsOk(Next(c, s, GetStep).value)
  {
    assert Distance(c.cells, s.front, s.indexOut) == 0;
  }

  /** Releasing turns the cleared front cell into a free one; the rest moves one place up. */
  lemma CellsReleased(c: Config, s: State)
    requires SizesOk(c, s) && CellsOk(s) && s.consumer.Inside? && s.consumer.stage == Release
    ensures CellsOk(Next(c, s, GetStep).value)
  {
    var s' := Next(c, s, GetStep).value;
    var n := |s.cells|;
    forall i | 0 <= i < n ensures s'.cells[i] == Actual(s', Distance(n, s'.front, i)) {
      var d := Distance(n, s.front, i);
      assert s.cells[i] == Actual(s, d);
      assert Distance(n, s'.front, i) == if d == 0 then n - 1 else d - 1;
    }
  }

  lemma CellsKept(s: State, s': State)
    requires CellsOk(s) && s'.cells == s.cells && s'.queue == s.queue && s'.front == s.front
    requires forall d: nat :: d < |s.cells| ==> Actual(s', d) == Actual(s, d)
    ensures CellsOk(s')
  {
  }

  lemma CellsStep(c: Config, s: State, a: Action)
    requires SizesOk(c, s) && CellsOk(s) && IndexesOk(c, s) && ConsumerOk(s) && Next(c, s, a).Some?
    ensures CellsOk(Next(c, s, a).value)
  {
    hide SizesOk, CellsOk, IndexesOk;
    if a.PutStep? && s.producer.stage in {CopyIn, MarkIn} {
      CellsCopied(c, s);
    } else if a.PutStep? && s.producer.stage == Publish {
      CellsPublished(c, s);
    } else if a.GetStep? && s.consumer.stage == ClearOut {
      CellsCleared(c, s);
    } else if a.GetStep? && s.consumer.stage == Release {
      CellsReleased(c, s);
    } else {
      if a.GetStep? && s.consumer.stage == CopyOut {
        FrontHasData(c, s);
      }
      CellsKept(s, Next(c, s, a).value);
    }
  }

  /** The call whose statement an action is. */
  function CallAt(s: State, a: Action): Option<Op> {
    if a == PutStep && s.producer.Holding? then Some(Put(s.producer.item))
    else if a == GetStep && s.consumer.Inside? then Some(s.consumer.op)
    else None
  }

  /** Between `s` and `s'` the bounded queue has carried out `op` and answered it. */
  ghost predicate Answers(c: Config, s: State, s': State, op: Op) {
    && s'.queue == After(c.cells, s.queue, op)
    && s'.log == s.log + [Entry(op, Answer(c.cells, s.queue, op))]
  }

  /** Every step either leaves the queue alone or is one call of the bounded queue, answered as it answers. */
  lemma StepRefines(c: Config, s: State, a: Action)
    requires Inv(c, s) && Next(c, s, a).Some?
    ensures var s' := Next(c, s, a).value;
      || (s'.queue == s.queue && s'.log == s.log)
      || (CallAt(s, a).Some? && Answers(c, s, s', CallAt(s, a).value))
  {
    hide CellsOk, LogOk;
    if a == GetStep {
      hide AfterPutStep;
      GetRefines(c, s);
    } else {
      hide AfterGetStep;
    }
  }

  lemma GetRefines(c: Config, s: State)
    requires Inv(c, s) && s.consumer.Inside? && Next(c, s, GetStep).Some?
    ensures var s' := Next(c, s, GetStep).value;
      (s'.queue == s.queue && s'.log == s.log) || Answers(c, s, s', s.consumer.op)
  {
    hide LogOk, AfterPutStep;
    if s.consumer.stage == CopyOut {
      FrontHasData(c, s);
    }
    hide CellsOk, IndexesOk;
  }

  lemma LogStep(c: Config, s: State, a: Action)
    requires Inv(c, s) && Next(c, s, a).Some?
    ensures LogOk(c, Next(c, s, a).value)
  {
    var s' := Next(c, s, a).value;
    StepRefines(c, s, a);
    hide SizesOk, CellsOk, IndexesOk, ConsumerOk, Next;
    if !(s'.queue == s.queue && s'.log == s.log) {
      var op := CallAt(s, a).value;
      LegalSnoc(c.cells, s.log, Entry(op, Answer(c.cells, s.queue, op)));
    }
  }

  lemma InvStep(c: Config, s: State, a: Action)
    requires Inv(c, s) && Next(c, s, a).Some?
    ensures Inv(c, Next(c, s, a).value)
  {
    hide SizesOk, CellsOk, IndexesOk, ConsumerOk, LogOk, Next;
    SizesStep(c, s, a);
    IndexesStep(c, s, a);
    CellsStep(c, s, a);
    ConsumerStep(c, s, a);
    LogStep(c, s, a);
  }

  lemma InvInductive(c: Config)
    ensures Inductive(Sys(c), s => Inv(c, s))
  {
    forall s, a | Inv(c, s) && Next(c, s, a).Some? ensures Inv(c, Next(c, s, a).value) {
      hide Next, Inv;
      InvStep(c, s, a);
    }
  }

  lemma ReachableInv(c: Config, s: State)
    requires Reachable(Sys(c), s)
    ensures Inv(c, s)
  {
    InvInductive(c);
    Holds(Sys(c), s => Inv(c, s), s);
  }

  // ------------------------------------------------------------- theorems

  predicate ProducerAtCell(p: Producer) {
    p.Holding? && p.stage in {CopyIn, MarkIn}
  }

  predicate ConsumerAtCell(k: Consumer) {
    k.Inside? && k.stage in {CopyOut, ClearOut}
  }

  /** Both sides stay inside the ring, and at no moment are both at the same cell. */
  lemma CellsApart(c: Config, s: State)
    requires Reachable(Sys(c), s)
    ensures ProducerAtCell(s.producer) ==> s.indexIn < |s.cells|
    ensures ConsumerAtCell(s.consumer) ==> s.indexOut < |s.cells| && s.cells[s.indexOut].hasData
    ensures ProducerAtCell(s.producer) && ConsumerAtCell(s.consumer) ==> s.indexIn != s.indexOut
  {
    ReachableInv(c, s);
    if ConsumerAtCell(s.consumer) {
      FrontHasData(c, s);
      if ProducerAtCell(s.producer) {
        EndsApart(c.cells, s.front, s.size);
      }
    }
  }

  /** A call that has begun always has a next statement; no access is ever out of range. */
  lemma NeverStuckInside(c: Config, s: State)
    requires Reachable(Sys(c), s)
    ensures s.producer.Holding? ==> Next(c, s, PutStep).Some?
    ensures s.consumer.Inside? ==> Next(c, s, GetStep).Some?
  {
    ReachableInv(c, s);
  }

  /**
    However the statements interleave, the replies given so far are those of one
    bounded first-in-first-out queue, and what was accepted is what was taken and
    what is still published.
   */
  lemma Linearisable(c: Config, s: State)
    requires Reachable(Sys(c), s)
    ensures InOrder(c.cells, s.log)
    ensures Taken(s.log) <= |Accepted(s.log)|
    ensures Accepted(s.log) == Accepted(s.log)[..Taken(s.log)] + s.queue
    ensures s.size == |s.queue| <= c.cells
  {
    ReachableInv(c, s);
    FifoLaw(c.cells, s.log);
    ReplayIsRest(c.cells, s.log);
  }

  /** Every step of every run is a step of the bounded queue for the call in progress, or none. */
  lemma Refines(c: Config, s: State, a: Action)
    requires Reachable(Sys(c), s) && Next(c, s, a).Some?
    ensures var s' := Next(c, s, a).value;
      || (s'.queue == s.queue && s'.log == s.log)
      || (CallAt(s, a).Some? && Answers(c, s, s', CallAt(s, a).value))
  {
    ReachableInv(c, s);
    StepRefines(c, s, a);
  }

  /** With no room reported a blocking producer never gets past its wait. */
  ghost predicate NothingIn(s: State) {
    s.queue == [] && (s.producer.Holding? ==> s.producer.stage == Guard)
  }

  lemma NothingInInductive(c: Config)
    requires c.reported == 0 && !c.timed
    ensures Inductive(Sys(c), s => NothingIn(s))
  {
  }

  /** Something can be published exactly when there is a cell, and room reported or a wait that ends by time. */
  lemma PublishesIff(c: Config)
    ensures (exists s :: Reachable(Sys(c), s) && s.queue != []) <==>
      c.cells > 0 && (c.reported > 0 || c.timed)
  {
    if c.cells == 0 {
      forall s | Reachable(Sys(c), s) ensures s.queue == [] {
        ReachableInv(c, s);
      }
    } else if c.reported == 0 && !c.timed {
      NothingInInductive(c);
      forall s | Reachable(Sys(c), s) ensures s.queue == [] {
        Holds(Sys(c), s => NothingIn(s), s);
      }
    } else {
      PublishOne(c);
    }
  }

  /** A producer gets past its wait: at once if room is reported, after one timed wait if not. */
  lemma PassGuard(c: Config) returns (s: State)
    requires c.reported > 0 || c.timed
    ensures Reachable(Sys(c), s)
    ensures exists waited :: s == Init(c).(producer := Holding(0, [], waited, TestIn))
  {
    hide AfterGetStep;
    ReachStart(Sys(c));
    s := Take(Sys(c), Init(c), Enter(0, []));
    s := Take(Sys(c), s, PutStep);
    if c.reported == 0 {
      assert s == Init(c).(parked := map[0 := []]);
      s := Take(Sys(c), s, Reenter(0));
      assert s == Init(c).(producer := Holding(0, [], true, Guard));
      s := Take(Sys(c), s, PutStep);
    }
  }

  /** From the size test to the copy finished. */
  lemma CopyOne(c: Config) returns (s: State)
    requires c.cells > 0 && (c.reported > 0 || c.timed)
    ensures Reachable(Sys(c), s) && s.producer.Holding? && s.producer.stage == BumpIn && s.queue == []
  {
    hide AfterGetStep;
    s := PassGuard(c);
    s := Take(Sys(c), s, PutStep);
    s := Take(Sys(c), s, PutStep);
    s := Take(Sys(c), s, PutStep);
  }

  lemma PublishOne(c: Config)
    requires c.cells > 0 && (c.reported > 0 || c.timed)
    ensures exists s :: Reachable(Sys(c), s) && s.queue != []
  {
    hide AfterGetStep;
    var s := CopyOne(c);
    s := Take(Sys(c), s, PutStep);
    s := Take(Sys(c), s, PutStep);
    s := Take(Sys(c), s, PutStep);
    assert s.queue != [];
  }
}
