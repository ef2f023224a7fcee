/**
  The other half of `Pipeline`: every state of the worker's model, with its one-step
  queue calls, is one the small steps reach.  What some run of the model does, some
  interleaving of the ring's statements therefore does too.
 */
module PipelineRuns {
  import opened Bytes
  import opened Frames
  import opened Recovery
  import opened Fifo
  import opened Runs
  import opened Worker
  import opened WorkerTheorems
  import opened Pipeline
  import Ring = LockFree

  /** No queue call is under way. */
  predicate Quiet(q: Ring.State) {
    q.producer == Ring.Free && q.parked == map[] && q.consumer == Ring.Outside
  }

  /** Between two queue calls the small steps stand exactly at the model's state. */
  ghost predicate Stands(c: Config, b: Both, w: State) {
    Reachable(PipelineSys(c), b) && Quiet(b.ring) && Abstract(b) == w
  }

  lemma ReachableBoth(c: Config, b: Both)
    requires Reachable(PipelineSys(c), b)
    ensures BothInv(c, b)
  {
    hide Ring.Inv, CallsOk;
    ProjectsInductive(c);
    Holds(PipelineSys(c), b => Projects(c, b), b);
    Ring.ReachableInv(RingConfig(c), b.ring);
  }

  // ------------------------------------------- a put, statement by statement

  /** The put is past its wait, alone, and what it still has to do makes the worker's state `w`. */
  ghost predicate PutDue(c: Config, b: Both, w: State) {
    var p := b.ring.producer;
    && Reachable(PipelineSys(c), b) && !b.worker.r.crashed
    && b.ring.parked == map[] && b.ring.consumer == Ring.Outside
    && p.Holding? && p.stage != Ring.Guard
    && if p.stage == Ring.Leave then Abstract(b) == w else Next(c, Abstract(b), ReaderStep) == Some(w)
  }

  lemma PutAdvances(c: Config, b: Both, w: State)
    requires BothInv(c, b) && PutDue(c, b, w) && b.ring.producer.stage != Ring.Leave
    requires Step(c, b, PutStatement).Some?
    ensures var b' := Step(c, b, PutStatement).value;
      && !b'.worker.r.crashed && b'.ring.parked == map[] && b'.ring.consumer == Ring.Outside
      && b'.ring.producer.Holding?
      && Ring.StageRank(b'.ring.producer.stage) < Ring.StageRank(b.ring.producer.stage)
      && if b'.ring.producer.stage == Ring.Leave then Abstract(b') == w else Abstract(b') == Abstract(b)
  {
    hide Parse, Next, Ring.CellsOk, Ring.IndexesOk, Ring.LogOk;
    PutSimulates(c, b);
    var b' := Step(c, b, PutStatement).value;
    if b'.ring.producer.stage == Ring.Leave {
      assert b.worker.r.pc.RPutting? && b'.worker.r.pc.RInnerAlive?;
    }
  }

  lemma {:induction false} FinishPut(c: Config, b: Both, w: State) returns (b': Both)
    requires PutDue(c, b, w)
    ensures Stands(c, b', w)
    decreases Ring.StageRank(b.ring.producer.stage)
  {
    hide Next, Ring.Inv, CallsOk;
    ReachableBoth(c, b);
    CallsGoOn(c, b);
    b' := Take(PipelineSys(c), b, PutStatement);
    if b.ring.producer.stage != Ring.Leave {
      PutAdvances(c, b, w);
      b' := FinishPut(c, b', w);
    }
  }

  /** Into the call and past its wait, which a timed put may have to sleep out once. */
  lemma BeginPut(c: Config, b: Both, w: State, w': State) returns (b': Both)
    requires Stands(c, b, w) && w.r.pc.RPutting? && Next(c, w, ReaderStep) == Some(w')
    ensures PutDue(c, b', w')
  {
    hide Parse, Ring.AfterGetStep, WriterMove, CallsOk, Ring.CellsOk, Ring.IndexesOk, Ring.LogOk, Ring.ConsumerOk;
    ReachableBoth(c, b);
    b' := Take(PipelineSys(c), b, EnterPut);
    b' := Take(PipelineSys(c), b', PutStatement);
    if b'.ring.producer == Ring.Free {
      b' := Take(PipelineSys(c), b', ReenterPut);
      assert b'.ring.parked == map[];
      b' := Take(PipelineSys(c), b', PutStatement);
    }
  }

  // ------------------------------------------- a get, statement by statement

  ghost predicate GetDue(c: Config, b: Both, w: State) {
    && Reachable(PipelineSys(c), b) && !b.worker.r.crashed
    && b.ring.producer == Ring.Free && b.ring.parked == map[] && b.ring.consumer.Inside?
    && Next(c, Abstract(b), Consume) == Some(w)
  }

  lemma GetAdvances(c: Config, b: Both, w: State)
    requires BothInv(c, b) && GetDue(c, b, w) && Step(c, b, GetStatement).Some?
    ensures var b' := Step(c, b, GetStatement).value;
      && !b'.worker.r.crashed && b'.ring.producer == Ring.Free && b'.ring.parked == map[]
      && if b'.ring.consumer.Inside?
         then Abstract(b') == Abstract(b) && Ring.GetRank(b'.ring.consumer.stage) < Ring.GetRank(b.ring.consumer.stage)
         else Abstract(b') == w
  {
    hide Parse, Ring.CellsOk, Ring.IndexesOk, Ring.LogOk;
    GetSimulates(c, b);
  }

  lemma {:induction false} FinishGet(c: Config, b: Both, w: State) returns (b': Both)
    requires GetDue(c, b, w)
    ensures Stands(c, b', w)
    decreases Ring.GetRank(b.ring.consumer.stage)
  {
    hide Next, Ring.Inv, CallsOk, Step, Abstract;
    ReachableBoth(c, b);
    CallsGoOn(c, b);
    b' := Take(PipelineSys(c), b, GetStatement);
    GetAdvances(c, b, w);
    if b'.ring.consumer.Inside? {
      b' := FinishGet(c, b', w);
    }
  }

  // ------------------------------------------------------------ whole runs

  /** A statement that is no queue call is the same statement in the small steps. */
  lemma OwnMimics(c: Config, b: Both, w: State, a: Action)
    requires Abstract(b) == w && Quiet(b.ring) && !CallsQueue(w, a) && Next(c, w, a).Some?
    ensures Step(c, b, Own(a)).Some? && Abstract(Step(c, b, Own(a)).value) == Next(c, w, a).value
  {
    hide Parse, WriterMove, Ring.Next;
    if a.ReaderStep? {
      ReaderSimulates(c, b.worker.flags, b.worker.r, b.ring.queue);
    }
  }

  lemma Mimic(c: Config, b: Both, w: State, a: Action) returns (b': Both)
    requires Stands(c, b, w) && Next(c, w, a).Some?
    ensures Stands(c, b', Next(c, w, a).value)
  {
    hide ReaderMove, WriterMove, Answer, After, Ring.Next;
    var w' := Next(c, w, a).value;
    if a.Consume? {
      b' := BeginGet(c, b, w, w');
      b' := FinishGet(c, b', w');
    } else if CallsQueue(w, a) {
      b' := BeginPut(c, b, w, w');
      b' := FinishPut(c, b', w');
    } else {
      OwnMimics(c, b, w, a);
      b' := Take(PipelineSys(c), b, Own(a));
    }
  }

  lemma BeginGet(c: Config, b: Both, w: State, w': State) returns (b': Both)
    requires Stands(c, b, w) && Next(c, w, Consume) == Some(w')
    ensures GetDue(c, b', w')
  {
    hide Answer, After;
    b' := Take(PipelineSys(c), b, CallGet);
  }

  lemma {:induction false} MimicRun(c: Config, trace: seq<Action>) returns (b: Both)
    requires Exec(Sys(c), trace).Some?
    ensures Stands(c, b, Exec(Sys(c), trace).value)
    decreases |trace|
  {
    hide Next;
    if trace == [] {
      b := Start(c);
      ReachStart(PipelineSys(c));
    } else {
      var init := trace[..|trace| - 1];
      b := MimicRun(c, init);
      b := Mimic(c, b, Exec(Sys(c), init).value, trace[|trace| - 1]);
    }
  }

  /**
    The worker with the ring's statements and the worker with one-step queue calls
    reach the same states, the former with no call under way.
   */
  lemma SmallStepsIff(c: Config, w: State)
    ensures Reachable(Sys(c), w) <==> exists b :: Reachable(PipelineSys(c), b) && Abstract(b) == w
    ensures Reachable(Sys(c), w) <==> exists b :: Stands(c, b, w)
  {
    hide Next, Step, Abstract;
    if Reachable(Sys(c), w) {
      var trace :| Exec(Sys(c), trace) == Some(w);
      var b := MimicRun(c, trace);
      assert Stands(c, b, w);
    }
    forall b | Reachable(PipelineSys(c), b) && Abstract(b) == w ensures Reachable(Sys(c), w) {
      SmallStepsRefine(c, b);
    }
  }

  /** Through the ring's statements, too, every datagram of every stream can be delivered when any datagram can. */
  lemma DeliversThroughRingIff(c: Config)
    requires c.readQueue && c.headCheck <= HEAD_SIZE
    ensures (exists b :: Reachable(PipelineSys(c), b) && b.worker.r.delivered != []) <==> CanDeliver(c)
    ensures (forall payloads :: exists b ::
              Reachable(PipelineSys(c), b) && b.worker.r.delivered == EncodeEach(SendableOnly(payloads)))
            <==> CanDeliver(c)
    ensures (forall chunks :: Sound(c, chunks) ==> exists b ::
              Reachable(PipelineSys(c), b) && Delivered(c, b.worker, chunks)) <==> CanDeliver(c)
  {
    hide Next, Step, Encode, Parse, Sound;
    OneSendable(c);
    if CanDeliver(c) {
      forall payloads ensures exists b ::
        Reachable(PipelineSys(c), b) && b.worker.r.delivered == EncodeEach(SendableOnly(payloads))
      {
        var w := DeliverAll(c, payloads);
        var b := StandAt(c, w);
      }
      forall chunks | Sound(c, chunks)
        ensures exists b :: Reachable(PipelineSys(c), b) && Delivered(c, b.worker, chunks)
      {
        var w := DeliverStream(c, chunks);
        var b := StandAt(c, w);
      }
    } else {
      DeliversIff(c);
      forall b | Reachable(PipelineSys(c), b) ensures b.worker.r.delivered == [] {
        SmallStepsRefine(c, b);
      }
    }
  }

  lemma StandAt(c: Config, w: State) returns (b: Both)
    requires Reachable(Sys(c), w)
    ensures Reachable(PipelineSys(c), b) && b.worker.r.(inbox := w.r.inbox) == w.r
  {
    hide Next, Step;
    SmallStepsIff(c, w);
    b :| Stands(c, b, w);
  }
}
