/**
  `BlockRead(BlockWrite(Ring))` and its timed variants: one lock, two conditions,
  any number of threads.

  `reported` is what `capacity()` answers when the write decorator asks.  For the
  ring as coded that is 0, whatever the number of cells; the name hidden by the
  ring's own field was meant to be the number of cells.
 */
module Monitor {
  import opened Bytes
  import opened Fifo
  import opened Runs

  datatype Call = Call(op: Op, timed: bool)

  /** Where a thread stands inside a decorator's method. */
  datatype Pc =
    | Idle
    | Locking(call: Call, woken: bool)   // wants the mutex: on entry, or back from a wait
    | Checking(call: Call, woken: bool)  // holds it, about to test the queue
    | Waiting(call: Call)                // asleep on the condition
    | Notifying(forGetters: bool)        // holds it, queue call done
    | Unlocking                          // holds it, about to return

  datatype Config = Config(cells: nat, reported: nat, threads: nat)

  datatype State = State(
    pcs: seq<Pc>,
    lock: Option<nat>,
    queue: seq<seq<byte>>,
    log: seq<Entry>,       // every queue call with its reply, in the order of the lock
    putsDone: nat,         // blocking puts that got past their wait
    refusedPuts: nat,      // blocking puts answered FULL
    refusedGets: nat,      // blocking gets and peeks answered EMPTY
    stolen: nat)           // notifications for getters delivered to a peek

  datatype Action =
    | Start(t: nat, call: Call)
    | Acquire(t: nat)
    | Check(t: nat)
    | Notify(t: nat, target: Option<nat>)
    | Unlock(t: nat)
    | Wake(t: nat)         // spurious wakeup, or the end of a timed wait

  function Init(c: Config): State {
    State(seq(c.threads, _ => Idle), None, [], [], 0, 0, 0, 0)
  }

  function MustWait(c: Config, queue: seq<seq<byte>>, op: Op): bool {
    if op.Put? then |queue| >= c.reported else |queue| <= 0
  }

  /** Does a `notify_one` after a put (or after a get) reach a thread that stands at `pc`? */
  predicate Hears(forGetters: bool, pc: Pc) {
    pc.Waiting? && pc.call.op.Put? == !forGetters
  }

  function Next(c: Config, s: State, a: Action): Option<State> {
    if a.t >= |s.pcs| then None
    else
      var pc := s.pcs[a.t];
      match a
      case Start(t, call) =>
        if pc == Idle then Some(s.(pcs := s.pcs[t := Locking(call, false)])) else None
      case Acquire(t) =>
        if pc.Locking? && s.lock == None
        then Some(s.(pcs := s.pcs[t := Checking(pc.call, pc.woken)], lock := Some(t)))
        else None
      case Check(t) =>
        if pc.Checking? then Some(Checked(c, s, t, pc.call, pc.woken)) else None
      case Notify(t, target) =>
        if !pc.Notifying? then None else Notified(s, t, pc.forGetters, target)
      case Unlock(t) =>
        if pc == Unlocking then Some(s.(pcs := s.pcs[t := Idle], lock := None)) else None
      case Wake(t) =>
        if pc.Waiting? then Some(s.(pcs := s.pcs[t := Locking(pc.call, true)])) else None
  }

  /** The wait test, then the wait or the queue call; a timed call waits at most once. */
  function Checked(c: Config, s: State, t: nat, call: Call, woken: bool): State
    requires t < |s.pcs|
  {
    if MustWait(c, s.queue, call.op) && !(call.timed && woken) then
      s.(pcs := s.pcs[t := Waiting(call)], lock := None)
    else
      var reply := Answer(c.cells, s.queue, call.op);
      var refused := if !call.timed && reply.status != Ok then 1 else 0;
      s.(pcs := s.pcs[t := if call.op.Peek? then Unlocking else Notifying(call.op.Put?)],
         queue := After(c.cells, s.queue, call.op),
         log := s.log + [Entry(call.op, reply)],
         putsDone := s.putsDone + if call.op.Put? && !call.timed then 1 else 0,
         refusedPuts := s.refusedPuts + if call.op.Put? then refused else 0,
         refusedGets := s.refusedGets + if call.op.Put? then 0 else refused)
  }

  /** `notify_one`: wake one of the sleepers there are, any of them. */
  function Notified(s: State, t: nat, forGetters: bool, target: Option<nat>): Option<State>
    requires t < |s.pcs| && s.pcs[t] == Notifying(forGetters)
  {
    match target
    case None =>
      if exists u :: 0 <= u < |s.pcs| && Hears(forGetters, s.pcs[u]) then None
      else Some(s.(pcs := s.pcs[t := Unlocking]))
    case Some(u) =>
      if u < |s.pcs| && Hears(forGetters, s.pcs[u]) then
        Some(s.(pcs := s.pcs[u := Locking(s.pcs[u].call, true)][t := Unlocking],
                stolen := s.stolen + if s.pcs[u].call.op.Peek? then 1 else 0))
      else None
  }

  ghost function Sys(c: Config): System<State, Action> {
    System(Init(c), (s, a) => Next(c, s, a))
  }

  // ------------------------------------------------------------- counting

  datatype Kind = SleepingReader | WokenGetter | SleepingPutter | WokenPutter | NoticeForGetter | NoticeForPutter

  predicate Is(kind: Kind, pc: Pc) {
    match kind
    case SleepingReader => pc.Waiting? && !pc.call.op.Put?
    case WokenGetter => (pc.Locking? || pc.Checking?) && pc.woken && pc.call.op.Get?
    case SleepingPutter => pc.Waiting? && pc.call.op.Put?
    case WokenPutter => (pc.Locking? || pc.Checking?) && pc.woken && pc.call.op.Put?
    case NoticeForGetter => pc.Notifying? && pc.forGetters
    case NoticeForPutter => pc.Notifying? && !pc.forGetters
  }

  function Count(pcs: seq<Pc>, kind: Kind): nat {
    if pcs == [] then 0 else (if Is(kind, pcs[0]) then 1 else 0) + Count(pcs[1..], kind)
  }

  lemma {:induction false} CountUpdate(pcs: seq<Pc>, t: nat, pc: Pc, kind: Kind)
    requires t < |pcs|
    ensures Count(pcs[t := pc], kind) + (if Is(kind, pcs[t]) then 1 else 0) ==
      Count(pcs, kind) + (if Is(kind, pc) then 1 else 0)
  {
    hide Is;
    if t == 0 {
      assert pcs[0 := pc][1..] == pcs[1..];
    } else {
      assert pcs[t := pc][1..] == pcs[1..][t - 1 := pc];
      CountUpdate(pcs[1..], t - 1, pc, kind);
    }
  }

  lemma {:induction false} CountZero(pcs: seq<Pc>, kind: Kind)
    ensures Count(pcs, kind) == 0 <==> forall t :: 0 <= t < |pcs| ==> !Is(kind, pcs[t])
  {
    hide Is;
    if pcs == [] {
    } else {
      CountZero(pcs[1..], kind);
      assert forall t :: 0 <= t < |pcs| - 1 ==> pcs[1..][t] == pcs[t + 1];
      assert forall t :: 0 < t < |pcs| ==> pcs[t] == pcs[1..][t - 1];
    }
  }

  lemma {:induction false} CountAtMost(pcs: seq<Pc>, kind: Kind)
    ensures Count(pcs, kind) <= |pcs|
  {
    hide Is;
    if pcs == [] {
    } else {
      CountAtMost(pcs[1..], kind);
    }
  }

  /** A thread of another kind leaves one fewer to be counted. */
  lemma {:induction false} CountNotAll(pcs: seq<Pc>, t: nat, kind: Kind)
    requires t < |pcs| && !Is(kind, pcs[t])
    ensures Count(pcs, kind) < |pcs|
  {
    hide Is;
    if t == 0 {
      CountAtMost(pcs[1..], kind);
    } else {
      CountNotAll(pcs[1..], t - 1, kind);
    }
  }

  // ----------------------------------------------------------- invariants

  predicate InCrit(pc: Pc) {
    pc.Checking? || pc.Notifying? || pc.Unlocking?
  }

  /** The mutex is held by the one thread inside the critical section. */
  ghost predicate Exclusive(c: Config, s: State) {
    && |s.pcs| == c.threads
    && (s.lock.Some? ==> s.lock.value < c.threads)
    && forall t :: 0 <= t < |s.pcs| ==> (InCrit(s.pcs[t]) <==> s.lock == Some(t))
  }

  /** The replies so far are those of a bounded first-in-first-out queue. */
  ghost predicate Linear(c: Config, s: State) {
    && Legal(c.cells, s.log) && Replay(c.cells, s.log) == s.queue && |s.queue| <= c.cells
    && s.refusedGets == 0
    && (c.reported <= c.cells ==> s.refusedPuts == 0)
    && (c.reported == 0 ==> s.putsDone == 0)
  }

  /** No wakeup is lost: a sleeper is covered by a thread already on its way, or a peek took its notice. */
  ghost predicate NoLostWakeup(c: Config, s: State) {
    && (Count(s.pcs, SleepingReader) > 0 ==>
          |s.queue| <= Count(s.pcs, WokenGetter) + Count(s.pcs, NoticeForGetter) + s.stolen)
    && (Count(s.pcs, SleepingPutter) > 0 ==>
          && c.reported <= c.cells
          && c.reported <= |s.queue| + Count(s.pcs, WokenPutter) + Count(s.pcs, NoticeForPutter))
  }

  /**
    Beside a sleeping get or peek an item stays queued only at the price of a thread
    that has been woken for it, is being notified of it, or is asleep no longer.
   */
  ghost predicate Crowded(c: Config, s: State) {
    Count(s.pcs, SleepingReader) > 0 && s.queue != [] ==>
      |s.queue| + Count(s.pcs, SleepingReader) + 1 <=
        c.threads + Count(s.pcs, WokenGetter) + Count(s.pcs, NoticeForGetter)
  }

  ghost predicate Inv(c: Config, s: State) {
    Exclusive(c, s) && Linear(c, s) && NoLostWakeup(c, s) && Crowded(c, s)
  }

  lemma CountAll(pcs: seq<Pc>, t: nat, pc: Pc)
    requires t < |pcs|
    ensures forall kind :: (Count(pcs[t := pc], kind) + (if Is(kind, pcs[t]) then 1 else 0) ==
                            Count(pcs, kind) + (if Is(kind, pc) then 1 else 0))
  {
    forall kind {
      CountUpdate(pcs, t, pc, kind);
    }
  }

  lemma LinearStep(c: Config, s: State, a: Action)
    requires Linear(c, s) && Next(c, s, a).Some?
    ensures Linear(c, Next(c, s, a).value)
  {
    if a.Check? {
      var pc := s.pcs[a.t];
      LegalSnoc(c.cells, s.log, Entry(pc.call.op, Answer(c.cells, s.queue, pc.call.op)));
    }
  }

  lemma ExclusiveStep(c: Config, s: State, a: Action)
    requires Exclusive(c, s) && Next(c, s, a).Some?
    ensures Exclusive(c, Next(c, s, a).value)
  {
  }

  /** A notify, with a sleeper to wake or without one, keeps every sleeper covered. */
  lemma NotifyKeeps(c: Config, s: State, t: nat, target: Option<nat>)
    requires Inv(c, s) && Next(c, s, Notify(t, target)).Some?
    ensures NoLostWakeup(c, Next(c, s, Notify(t, target)).value) && Crowded(c, Next(c, s, Notify(t, target)).value)
  {
    hide Count, Exclusive, Linear;
    match target
    case Some(u) =>
      var woken := Locking(s.pcs[u].call, true);
      CountAll(s.pcs, u, woken);
      CountAll(s.pcs[u := woken], t, Unlocking);
    case None =>
      CountAll(s.pcs, t, Unlocking);
      CountZero(s.pcs[t := Unlocking], if s.pcs[t].forGetters then SleepingReader else SleepingPutter);
  }

  lemma CheckKeeps(c: Config, s: State, t: nat)
    requires Inv(c, s) && Next(c, s, Check(t)).Some?
    ensures NoLostWakeup(c, Next(c, s, Check(t)).value) && Crowded(c, Next(c, s, Check(t)).value)
  {
    hide Count, Exclusive;
    CountAll(s.pcs, t, Next(c, s, Check(t)).value.pcs[t]);
    assert Next(c, s, Check(t)).value.pcs == s.pcs[t := Next(c, s, Check(t)).value.pcs[t]];
    ThreadsAre(c, s);
    CountNotAll(s.pcs, t, SleepingReader);
  }

  lemma ThreadsAre(c: Config, s: State)
    requires Exclusive(c, s)
    ensures |s.pcs| == c.threads
  {
  }

  lemma WakeupStep(c: Config, s: State, a: Action)
    requires Inv(c, s) && Next(c, s, a).Some?
    ensures NoLostWakeup(c, Next(c, s, a).value) && Crowded(c, Next(c, s, a).value)
  {
    match a
    case Notify(t, target) => NotifyKeeps(c, s, t, target);
    case Check(t) => CheckKeeps(c, s, t);
    case _ =>
      hide Count, Exclusive, Linear, Checked, Notified, Answer, After;
      CountAll(s.pcs, a.t, Next(c, s, a).value.pcs[a.t]);
      assert Next(c, s, a).value.pcs == s.pcs[a.t := Next(c, s, a).value.pcs[a.t]];
  }

  lemma InvInductive(c: Config)
    ensures Inductive(Sys(c), s => Inv(c, s))
  {
    var s0 := Init(c);
    CountZero(s0.pcs, SleepingReader);
    CountZero(s0.pcs, SleepingPutter);
    forall s, a | Inv(c, s) && Next(c, s, a).Some? ensures Inv(c, Next(c, s, a).value) {
      hide Next, Exclusive, Linear, NoLostWakeup, Crowded;
      LinearStep(c, s, a);
      ExclusiveStep(c, s, a);
      WakeupStep(c, s, a);
    }
  }

  lemma ReachableInv(c: Config, s: State)
    requires Reachable(Sys(c), s)
    ensures Inv(c, s)
  {
    InvInductive(c);
    Holds(Sys(c), s => Inv(c, s), s);
  }

  // ------------------------------------------------------------- theorems

  /**
    Whatever the threads do, the calls answered so far are those of one bounded
    queue in the order of the lock; what was put is what was got and what is
    still queued; and no blocking get or peek is told the queue is empty.
   */
  lemma Linearisable(c: Config, s: State)
    requires Reachable(Sys(c), s)
    ensures InOrder(c.cells, s.log)
    ensures Taken(s.log) <= |Accepted(s.log)|
    ensures Accepted(s.log) == Accepted(s.log)[..Taken(s.log)] + s.queue && |s.queue| <= c.cells
    ensures s.refusedGets == 0
  {
    ReachableInv(c, s);
    FifoLaw(c.cells, s.log);
    ReplayIsRest(c.cells, s.log);
  }

  /** A blocking put is never told the queue is full, exactly when no more room is reported than there is. */
  lemma NeverRefusedIff(c: Config)
    requires c.threads > 0
    ensures (forall s :: Reachable(Sys(c), s) ==> s.refusedPuts == 0) <==> c.reported <= c.cells
  {
    if c.reported <= c.cells {
      forall s | Reachable(Sys(c), s) ensures s.refusedPuts == 0 {
        ReachableInv(c, s);
      }
    } else {
      var s := Fill(c, c.cells + 1);
      assert s.refusedPuts == 1;
    }
  }

  lemma Fill(c: Config, n: nat) returns (s: State)
    requires c.threads > 0 && c.reported > c.cells
    ensures Reachable(Sys(c), s) && s.pcs == Init(c).pcs && s.lock == None
    ensures |s.queue| == (if n <= c.cells then n else c.cells) && s.refusedPuts == n - |s.queue|
  {
    if n == 0 {
      s := Init(c);
      ReachStart(Sys(c));
    } else {
      s := Fill(c, n - 1);
      var pcs := s.pcs;
      var call := Call(Put([0]), false);
      s := Take(Sys(c), s, Start(0, call));
      s := Take(Sys(c), s, Acquire(0));
      s := Take(Sys(c), s, Check(0));
      assert s.pcs[0] == Notifying(true);
      s := Take(Sys(c), s, Notify(0, None));
      s := Take(Sys(c), s, Unlock(0));
      assert s.pcs == pcs;
    }
  }

  /** A blocking put can get past its wait exactly when some room is reported; as coded, none ever does. */
  lemma BlockingPutReturnsIff(c: Config)
    requires c.threads > 0
    ensures (exists s :: Reachable(Sys(c), s) && s.putsDone > 0) <==> c.reported > 0
  {
    if c.reported > 0 {
      ReachStart(Sys(c));
      var s := Take(Sys(c), Init(c), Start(0, Call(Put([0]), false)));
      s := Take(Sys(c), s, Acquire(0));
      s := Take(Sys(c), s, Check(0));
      assert s.putsDone > 0;
    } else {
      forall s | Reachable(Sys(c), s) ensures s.putsDone == 0 {
        ReachableInv(c, s);
      }
    }
  }

  /** A step a thread makes by itself, without a new call or a wakeup from outside. */
  predicate Internal(a: Action) {
    !a.Start? && !a.Wake?
  }

  ghost predicate CanMove(c: Config, s: State) {
    exists a :: Internal(a) && Next(c, s, a).Some?
  }

  predicate AllAtRest(s: State) {
    forall t :: 0 <= t < |s.pcs| ==> s.pcs[t].Idle? || s.pcs[t].Waiting?
  }

  /** A thread that is neither outside nor asleep is never stuck behind the mutex for good. */
  lemma AwakeMoves(c: Config, s: State)
    requires Exclusive(c, s)
    ensures CanMove(c, s) <==> !AllAtRest(s)
  {
    if t :| 0 <= t < |s.pcs| && !s.pcs[t].Idle? && !s.pcs[t].Waiting? {
      var a := Acquire(t);
      if s.lock.Some? {
        var h := s.lock.value;
        a := Check(h);
        if s.pcs[h].Unlocking? {
          a := Unlock(h);
        } else if s.pcs[h].Notifying? {
          var g := s.pcs[h].forGetters;
          if u :| 0 <= u < |s.pcs| && Hears(g, s.pcs[u]) {
            a := Notify(h, Some(u));
          } else {
            a := Notify(h, None);
          }
        }
      }
      assert Next(c, s, a).Some?;
    }
  }

  predicate Sleeps(s: State, t: int) {
    0 <= t < |s.pcs| && s.pcs[t].Waiting?
  }

  predicate ReaderSleeps(s: State, g: int) {
    Sleeps(s, g) && !s.pcs[g].call.op.Put?
  }

  predicate PutterSleeps(s: State, p: int) {
    Sleeps(s, p) && s.pcs[p].call.op.Put?
  }

  /** Nobody can move, and somebody sleeps in a get or peek while somebody sleeps in a put. */
  ghost predicate Deadlocked(c: Config, s: State) {
    && !CanMove(c, s)
    && (exists g :: ReaderSleeps(s, g))
    && (exists p :: PutterSleeps(s, p))
  }

  /** The sleeper beside the put sleeps in a get. */
  ghost predicate GetterSleeps(s: State) {
    exists g :: ReaderSleeps(s, g) && s.pcs[g].call.op.Get?
  }

  /** When nobody can move, a sleeping get or peek has nothing to find and a sleeping put has no room. */
  lemma SleepersHaveReason(c: Config, s: State, t: int)
    requires Reachable(Sys(c), s) && !CanMove(c, s) && Sleeps(s, t)
    ensures !s.pcs[t].call.op.Put? ==> |s.queue| <= s.stolen
    ensures !s.pcs[t].call.op.Put? && s.queue != [] ==> |s.queue| + 2 <= c.threads
    ensures s.pcs[t].call.op.Put? ==> |s.queue| >= c.reported && c.reported <= c.cells
  {
    ReachableInv(c, s);
    AwakeMoves(c, s);
    CountZero(s.pcs, SleepingReader);
    CountZero(s.pcs, SleepingPutter);
    CountZero(s.pcs, WokenGetter);
    CountZero(s.pcs, WokenPutter);
    CountZero(s.pcs, NoticeForGetter);
    CountZero(s.pcs, NoticeForPutter);
  }

  /** A deadlock takes at least as many notifications swallowed by a peek as room reported. */
  lemma DeadlockNeedsPeeks(c: Config, s: State)
    requires Reachable(Sys(c), s) && Deadlocked(c, s)
    ensures s.stolen >= c.reported
  {
    var g :| ReaderSleeps(s, g);
    var p :| PutterSleeps(s, p);
    SleepersHaveReason(c, s, g);
    SleepersHaveReason(c, s, p);
  }

  /** A deadlock takes the two sleepers and as many threads again as room reported. */
  lemma DeadlockNeedsThreads(c: Config, s: State)
    requires Reachable(Sys(c), s) && Deadlocked(c, s)
    ensures c.reported <= c.cells && c.threads >= c.reported + 2
  {
    var g :| ReaderSleeps(s, g);
    var p :| PutterSleeps(s, p);
    SleepersHaveReason(c, s, g);
    SleepersHaveReason(c, s, p);
    ReachableInv(c, s);
  }

  /** Without peeks in the way the two decorators cannot deadlock, exactly when some room is reported. */
  lemma DeadlockFreeIff(c: Config)
    requires c.threads >= 2
    ensures (forall s :: Reachable(Sys(c), s) && s.stolen == 0 ==> !Deadlocked(c, s)) <==> c.reported > 0
  {
    if c.reported > 0 {
      forall s | Reachable(Sys(c), s) && s.stolen == 0 ensures !Deadlocked(c, s) {
        if Deadlocked(c, s) {
          DeadlockNeedsPeeks(c, s);
        }
      }
    } else {
      PeekDeadlock(c);
    }
  }

  /** A call that has to wait, from its start until it sleeps. */
  lemma FallAsleep(c: Config, s: State, t: nat, call: Call) returns (s': State)
    requires Reachable(Sys(c), s) && t < |s.pcs| && s.pcs[t] == Idle && s.lock == None
    requires MustWait(c, s.queue, call.op)
    ensures Reachable(Sys(c), s') && s' == s.(pcs := s.pcs[t := Waiting(call)])
  {
    s' := Take(Sys(c), s, Start(t, call));
    s' := Take(Sys(c), s', Acquire(t));
    s' := Take(Sys(c), s', Check(t));
    assert s'.pcs == s.pcs[t := Waiting(call)];
  }

  const PUT := Call(Put([0]), false)
  const GET := Call(Get(1), false)
  const PEEK := Call(Peek(1), false)

  /** A getter asleep, and the peeks numbered `gone` to `come` asleep beside it; the earlier ones have left. */
  ghost predicate Besides(c: Config, s: State, gone: nat, come: nat) {
    && s.pcs == seq(c.threads, t =>
         if t == 1 then Waiting(GET) else if 2 + gone <= t < 2 + come then Waiting(PEEK) else Idle)
    && s.lock == None && |s.queue| == gone && s.stolen == gone
  }

  lemma PeeksFallAsleep(c: Config, n: nat) returns (s: State)
    requires c.threads >= n + 2
    ensures Reachable(Sys(c), s) && Besides(c, s, 0, n)
  {
    if n == 0 {
      ReachStart(Sys(c));
      s := FallAsleep(c, Init(c), 1, GET);
    } else {
      s := PeeksFallAsleep(c, n - 1);
      s := FallAsleep(c, s, n + 1, PEEK);
    }
  }

  /** A put finds room and its notice goes to the sleeper `u`. */
  lemma PutWakes(c: Config, s: State, u: nat) returns (s': State)
    requires Reachable(Sys(c), s) && 0 < u < |s.pcs| && s.pcs[0] == Idle && s.pcs[u] == Waiting(PEEK)
    requires s.lock == None && |s.queue| < c.reported <= c.cells
    ensures Reachable(Sys(c), s') && s'.pcs == s.pcs[u := Locking(PEEK, true)]
    ensures s'.lock == None && s'.queue == s.queue + [[0]] && s'.stolen == s.stolen + 1
  {
    s' := Take(Sys(c), s, Start(0, PUT));
    s' := Take(Sys(c), s', Acquire(0));
    s' := Take(Sys(c), s', Check(0));
    s' := Take(Sys(c), s', Notify(0, Some(u)));
    s' := Take(Sys(c), s', Unlock(0));
    assert s'.pcs == s.pcs[u := Locking(PEEK, true)];
  }

  /** A woken peek looks at the item and leaves without passing the notice on. */
  lemma PeekLeaves(c: Config, s: State, u: nat) returns (s': State)
    requires Reachable(Sys(c), s) && u < |s.pcs| && s.pcs[u] == Locking(PEEK, true)
    requires s.lock == None && s.queue != []
    ensures Reachable(Sys(c), s') && s'.pcs == s.pcs[u := Idle]
    ensures s'.lock == None && s'.queue == s.queue && s'.stolen == s.stolen
  {
    s' := Take(Sys(c), s, Acquire(u));
    s' := Take(Sys(c), s', Check(u));
    s' := Take(Sys(c), s', Unlock(u));
    assert s'.pcs == s.pcs[u := Idle];
  }

  lemma PeeksStealAll(c: Config, n: nat) returns (s: State)
    requires n <= c.reported <= c.cells && c.threads >= c.reported + 2
    ensures Reachable(Sys(c), s) && Besides(c, s, n, c.reported)
  {
    if n == 0 {
      s := PeeksFallAsleep(c, c.reported);
    } else {
      var s0 := PeeksStealAll(c, n - 1);
      s := PutWakes(c, s0, n + 1);
      s := PeekLeaves(c, s, n + 1);
      assert s.pcs == s0.pcs[n + 1 := Idle];
    }
  }

  /**
    The bounds are met: with as many peeks asleep as there is room, each put can wake
    a peek in place of the getter, until the getter sleeps beside a full queue and
    the next put falls asleep too.
   */
  lemma PeekDeadlock(c: Config)
    requires c.reported <= c.cells && c.threads >= c.reported + 2
    ensures exists s :: Reachable(Sys(c), s) && Deadlocked(c, s) && GetterSleeps(s) && s.stolen == c.reported
  {
    var s := PeeksStealAll(c, c.reported);
    s := FallAsleep(c, s, 0, PUT);
    assert PutterSleeps(s, 0) && ReaderSleeps(s, 1);
    ReachableInv(c, s);
    AwakeMoves(c, s);
    assert Deadlocked(c, s) && GetterSleeps(s);
  }

  /**
    Exactly which configurations can deadlock when every thread may put, get and peek:
    those whose reported room fits the ring and leaves two of the threads over.  It
    makes no difference whether the reader left asleep sits in a get.
   */
  lemma DeadlockIff(c: Config)
    ensures (exists s :: Reachable(Sys(c), s) && Deadlocked(c, s)) <==>
      c.reported <= c.cells && c.threads >= c.reported + 2
    ensures (exists s :: Reachable(Sys(c), s) && Deadlocked(c, s) && GetterSleeps(s)) <==>
      c.reported <= c.cells && c.threads >= c.reported + 2
  {
    if s :| Reachable(Sys(c), s) && Deadlocked(c, s) {
      DeadlockNeedsThreads(c, s);
    }
    if c.reported <= c.cells && c.threads >= c.reported + 2 {
      PeekDeadlock(c);
    }
  }

  /** Nobody is outside any more who could still start a call. */
  predicate AllAsleep(s: State) {
    forall t :: 0 <= t < |s.pcs| ==> s.pcs[t].Waiting?
  }

  /** Beside a full queue every thread still outside can fall asleep in a put. */
  lemma RestFallAsleep(c: Config, s: State, n: nat) returns (s': State)
    requires Reachable(Sys(c), s) && AllAtRest(s) && s.lock == None
    requires |s.queue| >= c.reported && n <= |s.pcs|
    ensures Reachable(Sys(c), s') && |s'.pcs| == |s.pcs| && s'.lock == None && s'.queue == s.queue
    ensures forall t :: 0 <= t < |s.pcs| ==>
      s'.pcs[t] == if t < n && s.pcs[t] == Idle then Waiting(PUT) else s.pcs[t]
  {
    if n == 0 {
      s' := s;
    } else {
      s' := RestFallAsleep(c, s, n - 1);
      if s.pcs[n - 1] == Idle {
        s' := FallAsleep(c, s', n - 1, PUT);
      }
    }
  }

  /**
    The deadlock can be complete, every thread asleep and none left outside to start
    another call, in exactly the same configurations.
   */
  lemma CompleteDeadlockIff(c: Config)
    ensures (exists s :: Reachable(Sys(c), s) && Deadlocked(c, s) && AllAsleep(s)) <==>
      c.reported <= c.cells && c.threads >= c.reported + 2
  {
    if s :| Reachable(Sys(c), s) && Deadlocked(c, s) && AllAsleep(s) {
      DeadlockNeedsThreads(c, s);
    }
    if c.reported <= c.cells && c.threads >= c.reported + 2 {
      var s := PeeksStealAll(c, c.reported);
      s := RestFallAsleep(c, s, |s.pcs|);
      assert PutterSleeps(s, 0) && ReaderSleeps(s, 1);
      ReachableInv(c, s);
      AwakeMoves(c, s);
      assert Deadlocked(c, s) && AllAsleep(s);
    }
  }

  // --------------------------------------------------- programs without peek

  /** The same decorators in a program whose threads only put and get. */
  function PeeklessNext(c: Config, s: State, a: Action): Option<State> {
    if a.Start? && a.call.op.Peek? then None else Next(c, s, a)
  }

  ghost function PeeklessSys(c: Config): System<State, Action> {
    System(Init(c), (s, a) => PeeklessNext(c, s, a))
  }

  predicate InPeek(pc: Pc) {
    (pc.Locking? || pc.Checking? || pc.Waiting?) && pc.call.op.Peek?
  }

  predicate NobodyPeeks(s: State) {
    s.stolen == 0 && forall t :: 0 <= t < |s.pcs| ==> !InPeek(s.pcs[t])
  }

  ghost predicate Peekless(c: Config, s: State) {
    Reachable(Sys(c), s) && NobodyPeeks(s)
  }

  lemma PeeklessStep(c: Config, s: State, a: Action)
    requires NobodyPeeks(s) && PeeklessNext(c, s, a).Some?
    ensures NobodyPeeks(PeeklessNext(c, s, a).value)
  {
    hide Answer, After;
  }

  lemma PeeklessInductive(c: Config)
    ensures Inductive(PeeklessSys(c), s => Peekless(c, s))
  {
    ReachStart(Sys(c));
    forall s, a | Peekless(c, s) && PeeklessNext(c, s, a).Some? ensures Peekless(c, PeeklessNext(c, s, a).value) {
      hide Next, NobodyPeeks;
      var s' := Take(Sys(c), s, a);
      PeeklessStep(c, s, a);
    }
  }

  /** Without peek a deadlock takes only that no room is reported, and a thread for each side. */
  lemma PeeklessDeadlockIff(c: Config)
    ensures (exists s :: Reachable(PeeklessSys(c), s) && Deadlocked(c, s)) <==>
      c.reported == 0 && c.threads >= 2
  {
    if s :| Reachable(PeeklessSys(c), s) && Deadlocked(c, s) {
      PeeklessInductive(c);
      Holds(PeeklessSys(c), s => Peekless(c, s), s);
      DeadlockNeedsPeeks(c, s);
      DeadlockNeedsThreads(c, s);
    }
    if c.reported == 0 && c.threads >= 2 {
      NoRoomDeadlocks(c);
    }
  }

  lemma PeeklessSleep(c: Config, s: State, t: nat, call: Call) returns (s': State)
    requires Reachable(PeeklessSys(c), s) && t < |s.pcs| && s.pcs[t] == Idle && s.lock == None
    requires MustWait(c, s.queue, call.op) && !call.op.Peek?
    ensures Reachable(PeeklessSys(c), s') && s' == s.(pcs := s.pcs[t := Waiting(call)])
  {
    s' := Take(PeeklessSys(c), s, Start(t, call));
    s' := Take(PeeklessSys(c), s', Acquire(t));
    s' := Take(PeeklessSys(c), s', Check(t));
    assert s'.pcs == s.pcs[t := Waiting(call)];
  }

  lemma NoRoomDeadlocks(c: Config)
    requires c.reported == 0 && c.threads >= 2
    ensures exists s :: Reachable(PeeklessSys(c), s) && Deadlocked(c, s)
  {
    ReachStart(PeeklessSys(c));
    var s := PeeklessSleep(c, Init(c), 0, PUT);
    s := PeeklessSleep(c, s, 1, GET);
    assert PutterSleeps(s, 0) && ReaderSleeps(s, 1);
    PeeklessInductive(c);
    Holds(PeeklessSys(c), s => Peekless(c, s), s);
    ReachableInv(c, s);
    AwakeMoves(c, s);
  }
}
