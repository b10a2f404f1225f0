/**
 How far the shutdown's promises reach: exactly when the drain covers every dead-letter write,
 and exactly when the workers and drain steps can hang.
 */
module WorkerShutdownLimits {
  import opened Wrappers
  import opened WorkerShutdown

  // ------------------------------------------------------------ putting runs together

  lemma RunOne(s: State, op: Op)
    ensures Run(s, [op]) == Step(s, op)
  {
    assert Run(s, [op]) == Run(Step(s, op), []);
  }

  lemma RunFirst(s: State, op: Op, rest: seq<Op>)
    ensures Run(s, [op] + rest) == Run(Step(s, op), rest)
  {
    assert ([op] + rest)[1..] == rest;
  }

  lemma {:induction false} RunBoth(s: State, first: seq<Op>, second: seq<Op>)
    ensures Run(s, first + second) == Run(Run(s, first), second)
    decreases |first|
  {
    if first == [] {
      assert first + second == second;
    } else {
      assert (first + second)[1..] == first[1..] + second;
      RunBoth(Step(s, first[0]), first[1..], second);
    }
  }

  // --------------------------------------------- when the drain covers every write

  /** The operations a run is allowed: with `stalls` all, without it none of the stalled checker's failures. */
  predicate Permitted(ops: seq<Op>, stalls: bool) {
    stalls || forall op :: op in ops ==> !op.StalledJobFails?
  }

  /** A worker that can fail no further job: it has closed or, leaving the stalled checker aside, it holds none. */
  predicate Quiet(s: State, stalls: bool) {
    forall w :: w in s.workers ==> s.workers[w].closed || (!stalls && s.workers[w].active == 0)
  }

  /** If the queues step has started and the drain was not cut short, no write is in flight. */
  predicate Covered(s: State) {
    HasStarted(s, Queues) && !s.drainTimedOut ==> s.inFlight == {}
  }

  ghost predicate PastDrainStart(s: State, stalls: bool) {
    Sound(s) && s.control.started > DRAIN_STEP && Quiet(s, stalls) && s.inFlight <= s.snapshot
  }

  lemma StepStaysQuiet(s: State, op: Op, stalls: bool)
    requires PastDrainStart(s, stalls) && (stalls || !op.StalledJobFails?)
    ensures PastDrainStart(Step(s, op), stalls)
  {
    StepKeepsSound(s, op);
    StepMovesControl(s, op);
    if ControlOp(s, op).Some? {
      DriveStaysQuiet(s, ControlOp(s, op).value);
    }
  }

  /** Beyond the drain, entering a step touches neither workers nor writes. */
  lemma DriveStaysQuiet(s: State, op: Control.Op)
    requires WellFormed(s) && s.control.started > DRAIN_STEP
    ensures Drive(s, op) == s.(control := Control.Step(s.control, op))
    ensures Control.Step(s.control, op).started >= s.control.started
  {
    Control.StepKeepsInvariant(s.control, op);
    var t := s.(control := Control.Step(s.control, op));
    if t.control.started > s.control.started {
      assert Current(t) == Some(t.steps[|t.control.results|]) && |t.control.results| > DRAIN_STEP;
    }
  }

  lemma {:induction false} RunStaysQuiet(s: State, ops: seq<Op>, stalls: bool)
    requires PastDrainStart(s, stalls) && Permitted(ops, stalls)
    ensures PastDrainStart(Run(s, ops), stalls)
    decreases |ops|
  {
    if ops != [] {
      StepStaysQuiet(s, ops[0], stalls);
      RunStaysQuiet(Step(s, ops[0]), ops[1..], stalls);
    }
  }

  lemma QuietIsCovered(s: State, stalls: bool)
    requires PastDrainStart(s, stalls)
    ensures Covered(s)
  {
    if HasStarted(s, Queues) {
      assert |s.control.results| > DRAIN_STEP;
      assert s.inFlight == s.snapshot * s.inFlight;
    }
  }

  lemma {:induction false} SettleWrites(s: State, writes: set<CallId>) returns (ops: seq<Op>)
    requires writes <= s.inFlight && !s.control.ended
    ensures Run(s, ops) == s.(inFlight := s.inFlight - writes)
    ensures forall op :: op in ops ==> op.WriteSettles? && op.write in writes
    decreases writes
  {
    ops := [];
    if writes == {} {
      assert s.inFlight - writes == s.inFlight;
    } else {
      var write :| write in writes;
      var t := Step(s, WriteSettles(write));
      var rest := SettleWrites(t, writes - {write});
      RunFirst(s, WriteSettles(write), rest);
      assert t.inFlight - (writes - {write}) == s.inFlight - writes;
      ops := [WriteSettles(write)] + rest;
    }
  }

  /** From the drain on, settling a step that is not the last moves the controller and nothing else. */
  lemma SettlesInto(s: State)
    requires Sound(s) && DRAIN_STEP < s.control.started < |s.steps|
    requires Current(s).Some? && CanSettle(s, true)
    ensures var t := Step(s, StepSettles(true));
            && t == s.(control := t.control)
            && t.control.started == s.control.started + 1
            && t.control.results == s.control.results + [true]
            && Sound(t)
  {
    StepKeepsSound(s, StepSettles(true));
    DriveStaysQuiet(s, Control.StepSettles(true));
  }

  /** The steps from the drain up to the queues settle one after the other. */
  lemma {:induction false} AdvanceToQueues(s: State) returns (ops: seq<Op>)
    requires Sound(s) && Current(s).Some? && DRAIN_STEP < s.control.started < |s.steps|
    requires Current(s) == Some(DeadLetterDrain) ==> s.snapshot * s.inFlight == {}
    ensures var t := Run(s, ops);
            && t == s.(control := t.control)
            && HasStarted(t, Queues) && !t.control.ended
    ensures Permitted(ops, false)
    decreases |s.steps| - s.control.started
  {
    ops := [];
    if s.control.started == |s.steps| - 1 {
      assert s.steps[|s.steps| - 2] == Queues;
    } else {
      SettlesInto(s);
      var t := Step(s, StepSettles(true));
      var rest := AdvanceToQueues(t);
      RunFirst(s, StepSettles(true), rest);
      ops := [StepSettles(true)] + rest;
    }
  }

  /** There is always a write that has not begun. */
  lemma {:induction false} AboveAll(begun: set<CallId>) returns (n: CallId)
    ensures forall c :: c in begun ==> c < n
    decreases begun
  {
    n := 0;
    if begun != {} {
      var c :| c in begun;
      n := AboveAll(begun - {c});
      assert forall d :: d in begun ==> d == c || d in begun - {c};
      if n <= c {
        n := c + 1;
      }
    }
  }

  /** A worker that is not quiet begins a write whenever it pleases. */
  lemma UnquietBegins(s: State, stalls: bool) returns (op: Op)
    requires Sound(s) && !s.control.ended && !Quiet(s, stalls)
    ensures Permitted([op], stalls)
    ensures var t := Step(s, op);
            t.control == s.control && t.steps == s.steps && t.drainTimedOut == s.drainTimedOut && t.inFlight != {}
  {
    var w :| w in s.workers && !s.workers[w].closed && (stalls || s.workers[w].active > 0);
    var write := AboveAll(s.begun);
    op := if s.workers[w].active > 0 then JobFailsForGood(w, write) else StalledJobFails(w, write);
    assert write in Step(s, op).inFlight;
  }

  /** Unless all is quiet, and nothing begun since escapes the drain, a write is in flight when the queues close. */
  lemma UncoveredRun(s: State, stalls: bool) returns (ops: seq<Op>)
    requires Sound(s) && Current(s) == Some(DeadLetterDrain) && !s.drainTimedOut
    requires !(s.inFlight <= s.snapshot && Quiet(s, stalls))
    ensures Permitted(ops, stalls) && !Covered(Run(s, ops))
  {
    var settled := SettleWrites(s, s.snapshot * s.inFlight);
    RunKeepsSound(s, settled);
    var t := Run(s, settled);
    assert t.snapshot * t.inFlight == {};
    var advanced := AdvanceToQueues(t);
    RunKeepsSound(t, advanced);
    RunBoth(s, settled, advanced);
    ops := settled + advanced;
    var u := Run(t, advanced);
    if !(s.inFlight <= s.snapshot) {
      var write :| write in s.inFlight && write !in s.snapshot;
      assert write in u.inFlight;
    } else {
      assert !Quiet(u, stalls);
      var op := UnquietBegins(u, stalls);
      RunBoth(s, ops, [op]);
      RunOne(u, op);
      ops := ops + [op];
      assert HasStarted(Step(u, op), Queues);
    }
  }

  /**
   While the drain waits, no continuation in which it is not cut short leaves a write in flight
   when the queues step has started, exactly when every write in flight is one the drain waits
   for and no worker can fail a job any more: every worker has closed or, leaving the stalled
   checker aside, none holds a job.
   */
  lemma DrainCoversEveryWriteIff(
    metricsServer: bool, queueEvents: bool, workers: set<WorkerId>, before: seq<Op>, stalls: bool)
    ensures var s := Run(Initial(metricsServer, queueEvents, workers), before);
            Current(s) == Some(DeadLetterDrain) && !s.drainTimedOut ==>
              ((forall ops :: Permitted(ops, stalls) ==> Covered(Run(s, ops)))
               <==> s.inFlight <= s.snapshot && Quiet(s, stalls))
  {
    var s := Reached(metricsServer, queueEvents, workers, before);
    if Current(s) == Some(DeadLetterDrain) && !s.drainTimedOut {
      if s.inFlight <= s.snapshot && Quiet(s, stalls) {
        forall ops | Permitted(ops, stalls)
          ensures Covered(Run(s, ops))
        {
          RunStaysQuiet(s, ops, stalls);
          QuietIsCovered(Run(s, ops), stalls);
        }
      } else {
        var ops := UncoveredRun(s, stalls);
        assert Permitted(ops, stalls) && !Covered(Run(s, ops));
      }
    }
  }

  /** Every worker has closed exactly when the workers step succeeded. */
  lemma AllClosedIffStepSucceeded(metricsServer: bool, queueEvents: bool, workers: set<WorkerId>, ops: seq<Op>)
    ensures var s := Run(Initial(metricsServer, queueEvents, workers), ops);
            |s.control.results| > WORKERS_STEP ==> (Quiet(s, true) <==> WorkersClosed(s))
  {
    var s := Reached(metricsServer, queueEvents, workers, ops);
  }

  // --------------------------------------------------------- a run that escapes

  ghost predicate Reaches(s: State, t: State) {
    exists ops :: Run(s, ops) == t
  }

  lemma Next(s: State, t: State, op: Op) returns (u: State)
    requires Reaches(s, t)
    ensures u == Step(t, op) && Reaches(s, u)
  {
    var ops :| Run(s, ops) == t;
    RunBoth(s, ops, [op]);
    RunOne(t, op);
    u := Step(t, op);
  }

  /** Two workers, the second with a job and no write begun, at some point of the first steps. */
  ghost predicate Stage(t: State, results: seq<bool>) {
    && t.steps == Steps(false, false) && t.control.steps == |t.steps|
    && t.control.results == results && t.control.started == |results| + 1
    && t.control.settledAtDeadline == None && !t.control.ended && !t.drainTimedOut
    && t.workers.Keys == {1, 2} && t.workers[2].active > 0
    && t.inFlight == {} && t.begun == {}
  }

  lemma SignalledWithAJob() returns (t: State)
    ensures Reaches(Initial(false, false, {1, 2}), t) && Stage(t, [])
    ensures !t.workers[1].closed && !t.workers[1].closeFailed
  {
    var s := Initial(false, false, {1, 2});
    assert Run(s, []) == s;
    t := Next(s, s, JobFetched(2));
    t := Next(s, t, Signal);
  }

  /** A settled step that is not the last enters the next. */
  lemma SettlingEnters(t: State, ok: bool)
    requires CanSettle(t, ok) && !t.control.ended && t.control.steps == |t.steps|
    requires |t.control.results| + 1 == t.control.started < |t.steps|
    ensures var u := Step(t, StepSettles(ok));
            && u == Enter(t.(control := u.control))
            && u.control.started == t.control.started + 1
            && u.control.results == t.control.results + [ok]
            && u.control.steps == t.control.steps && !u.control.ended
            && u.control.timerLive == t.control.timerLive
            && u.control.settledAtDeadline == t.control.settledAtDeadline
  {
  }

  lemma SettleMarkDraining(s: State, t: State) returns (u: State)
    requires Reaches(s, t) && Stage(t, [])
    ensures Reaches(s, u) && Stage(u, [true])
    ensures u.workers[1] == t.workers[1].(closing := true)
  {
    SettlingEnters(t, true);
    u := Next(s, t, StepSettles(true));
  }

  lemma SettleWorkers(s: State, t: State) returns (u: State)
    requires Reaches(s, t) && Stage(t, [true]) && CanSettle(t, false)
    ensures Reaches(s, u) && Stage(u, [true, false])
  {
    SettlingEnters(t, false);
    u := Next(s, t, StepSettles(false));
  }

  lemma SettleDrain(s: State, t: State) returns (u: State)
    requires Reaches(s, t) && Stage(t, [true, false])
    ensures Reaches(s, u) && Stage(u, [true, false, true])
  {
    SettlingEnters(t, true);
    u := Next(s, t, StepSettles(true));
  }

  lemma CloseFailsStage(s: State, t: State) returns (u: State)
    requires Reaches(s, t) && Stage(t, [true]) && Closing(t, 1)
    ensures Reaches(s, u) && Stage(u, [true]) && CanSettle(u, false)
  {
    u := Next(s, t, WorkerCloseFails(1));
    assert 1 in u.workers && u.workers[1].closeFailed;
  }

  /** One worker's close fails while another still holds a job, and the queues step starts. */
  lemma QueuesStartedWithAJob() returns (t: State)
    ensures Reaches(Initial(false, false, {1, 2}), t) && Stage(t, [true, false, true])
  {
    var s := Initial(false, false, {1, 2});
    t := SignalledWithAJob();
    t := SettleMarkDraining(s, t);
    t := CloseFailsStage(s, t);
    t := SettleWorkers(s, t);
    t := SettleDrain(s, t);
  }

  /** A failed close does let a write escape: the job that is left fails for good once the queues step has started. */
  lemma FailedCloseLeavesAWrite(write: CallId)
    ensures exists t ::
              && Reaches(Initial(false, false, {1, 2}), t)
              && HasStarted(t, Queues) && !t.drainTimedOut && t.control.settledAtDeadline == None
              && t.inFlight == {write}
  {
    var t := QueuesStartedWithAJob();
    assert t.steps[3] == Queues;
    var u := Next(Initial(false, false, {1, 2}), t, JobFailsForGood(2, write));
    assert HasStarted(u, Queues);
  }

  // ------------------------------------------------------- when a step can hang

  /** The workers step is waiting, and no close has failed. */
  ghost predicate InWorkersStep(s: State) {
    Sound(s) && Current(s) == Some(Workers) && !SomeCloseFailed(s)
  }

  predicate Holds(s: State, hung: set<WorkerId>) {
    forall w :: w in hung ==> w in s.workers && s.workers[w].active > 0
  }

  /** Each worker in `hung` has a handler that never settles, so it always holds a job; and no close fails. */
  predicate Hanging(s: State, ops: seq<Op>, hung: set<WorkerId>)
    decreases |ops|
  {
    ops == []
    || (!ops[0].WorkerCloseFails? && Holds(Step(s, ops[0]), hung) && Hanging(Step(s, ops[0]), ops[1..], hung))
  }

  lemma StepStaysInWorkers(s: State, op: Op)
    requires InWorkersStep(s) && !op.WorkerCloseFails?
    requires op.StepSettles? ==> !CanSettle(s, op.ok)
    ensures InWorkersStep(Step(s, op)) && Step(s, op).control.results == s.control.results
  {
    StepKeepsSound(s, op);
    StepAddsResult(s, op);
    StepMovesControl(s, op);
    NoNewCloseFailure(s, op);
  }

  lemma NoNewCloseFailure(s: State, op: Op)
    requires !SomeCloseFailed(s) && !op.WorkerCloseFails?
    ensures !SomeCloseFailed(Step(s, op))
  {
    forall w | w in Step(s, op).workers
      ensures !Step(s, op).workers[w].closeFailed
    {
      StepFixesWorkers(s, op);
      StepMovesCloseFailures(s, op, w);
    }
  }

  lemma {:induction false} HungStepWaits(s: State, ops: seq<Op>, hung: set<WorkerId>)
    requires InWorkersStep(s) && hung != {} && Holds(s, hung) && Hanging(s, ops, hung)
    ensures Run(s, ops).control.results == s.control.results
    decreases |ops|
  {
    if ops != [] {
      var w :| w in hung;
      assert w in s.workers && !s.workers[w].closed;
      StepStaysInWorkers(s, ops[0]);
      HungStepWaits(Step(s, ops[0]), ops[1..], hung);
    }
  }

  /** All jobs of one worker settle. */
  lemma {:induction false} EmptyWorker(s: State, w: WorkerId) returns (ops: seq<Op>)
    requires w in s.workers && !s.control.ended
    ensures Run(s, ops) == WithWorker(s, w, s.workers[w].(active := 0))
    ensures forall op :: op in ops ==> op.JobSettles?
    decreases s.workers[w].active
  {
    ops := [];
    if s.workers[w].active == 0 {
      assert s.workers[w := s.workers[w]] == s.workers;
    } else {
      var t := Step(s, JobSettles(w));
      var rest := EmptyWorker(t, w);
      RunFirst(s, JobSettles(w), rest);
      assert t.workers[w := t.workers[w].(active := 0)] == s.workers[w := s.workers[w].(active := 0)];
      ops := [JobSettles(w)] + rest;
    }
  }

  /** One worker's jobs settle, and it closes. */
  lemma CloseWorker(s: State, w: WorkerId) returns (ops: seq<Op>)
    requires InWorkersStep(s) && w in s.workers && !s.workers[w].closed
    ensures var t := Run(s, ops);
            && InWorkersStep(t)
            && t == WithWorker(s, w, s.workers[w].(active := 0, closed := true))
    ensures forall op :: op in ops ==> op.JobSettles? || op.WorkerCloses?
  {
    var emptied := EmptyWorker(s, w);
    var t := Run(s, emptied);
    RunKeepsSound(s, emptied);
    var u := Step(t, WorkerCloses(w));
    StepKeepsSound(t, WorkerCloses(w));
    RunBoth(s, emptied, [WorkerCloses(w)]);
    RunOne(t, WorkerCloses(w));
    assert u.workers == s.workers[w := s.workers[w].(active := 0, closed := true)];
    assert forall v :: v in u.workers ==> v in s.workers && u.workers[v].closeFailed == s.workers[v].closeFailed;
    ops := emptied + [WorkerCloses(w)];
  }

  lemma {:induction false} CloseWorkers(s: State, left: set<WorkerId>) returns (ops: seq<Op>)
    requires InWorkersStep(s) && left <= s.workers.Keys
    requires forall w :: w in s.workers && w !in left ==> s.workers[w].closed
    ensures var t := Run(s, ops);
            InWorkersStep(t) && t.control == s.control && CanSettle(t, true)
    ensures forall op :: op in ops ==> op.JobSettles? || op.WorkerCloses?
    decreases left
  {
    ops := [];
    if left != {} {
      var w :| w in left;
      if s.workers[w].closed {
        ops := CloseWorkers(s, left - {w});
      } else {
        var closed := CloseWorker(s, w);
        var rest := CloseWorkers(Run(s, closed), left - {w});
        RunBoth(s, closed, rest);
        ops := closed + rest;
      }
    }
  }

  lemma {:induction false} NoneHung(s: State, ops: seq<Op>)
    requires forall op :: op in ops ==> !op.WorkerCloseFails?
    ensures Hanging(s, ops, {})
    decreases |ops|
  {
    if ops != [] {
      NoneHung(Step(s, ops[0]), ops[1..]);
    }
  }

  lemma SettleAfter(s: State, ops: seq<Op>, ok: bool) returns (more: seq<Op>)
    requires Sound(Run(s, ops)) && CanSettle(Run(s, ops), ok) && !Run(s, ops).control.ended
    ensures more == ops + [StepSettles(ok)]
    ensures Run(s, more).control.results == Run(s, ops).control.results + [ok]
  {
    more := ops + [StepSettles(ok)];
    RunBoth(s, ops, [StepSettles(ok)]);
    RunOne(Run(s, ops), StepSettles(ok));
    StepMovesControl(Run(s, ops), StepSettles(ok));
  }

  /**
   Let some workers each hold a job whose handler never settles. Unless a close fails, the
   workers step waits for ever exactly when there is such a worker.
   */
  lemma WorkersStepHangsIff(
    metricsServer: bool, queueEvents: bool, workers: set<WorkerId>, before: seq<Op>, hung: set<WorkerId>)
    ensures var s := Run(Initial(metricsServer, queueEvents, workers), before);
            Current(s) == Some(Workers) && !SomeCloseFailed(s) && Holds(s, hung) ==>
              ((forall ops :: Hanging(s, ops, hung) ==> Run(s, ops).control.results == s.control.results)
               <==> hung != {})
  {
    var s := Reached(metricsServer, queueEvents, workers, before);
    if InWorkersStep(s) && Holds(s, hung) {
      if hung == {} {
        var ops := CloseWorkers(s, s.workers.Keys);
        var more := SettleAfter(s, ops, true);
        NoneHung(s, more);
        assert Hanging(s, more, hung) && Run(s, more).control.results != s.control.results;
      } else {
        forall ops | Hanging(s, ops, hung)
          ensures Run(s, ops).control.results == s.control.results
        {
          HungStepWaits(s, ops, hung);
        }
      }
    }
  }

  /** The drain's timer has not fired, and none of the writes in `stuck` settles. */
  predicate Undrained(ops: seq<Op>, stuck: set<CallId>) {
    forall op :: op in ops ==> !op.DrainTimerFires? && (op.WriteSettles? ==> op.write !in stuck)
  }

  ghost predicate InDrain(s: State) {
    Sound(s) && Current(s) == Some(DeadLetterDrain) && !s.drainTimedOut
  }

  lemma StepStaysInDrain(s: State, op: Op, write: CallId)
    requires InDrain(s) && write in s.snapshot && write in s.inFlight
    requires op != DrainTimerFires && op != WriteSettles(write)
    ensures var t := Step(s, op);
            && InDrain(t) && t.control.results == s.control.results
            && write in t.snapshot && write in t.inFlight
  {
    assert write in s.snapshot * s.inFlight;
    StepKeepsSound(s, op);
    StepAddsResult(s, op);
    StepMovesControl(s, op);
    if ControlOp(s, op).Some? {
      DriveStaysQuiet(s, ControlOp(s, op).value);
    }
  }

  lemma {:induction false} StuckDrainWaits(s: State, ops: seq<Op>, stuck: set<CallId>, write: CallId)
    requires InDrain(s) && write in s.snapshot && write in s.inFlight && write in stuck && Undrained(ops, stuck)
    ensures Run(s, ops).control.results == s.control.results
    decreases |ops|
  {
    if ops != [] {
      StepStaysInDrain(s, ops[0], write);
      StuckDrainWaits(Step(s, ops[0]), ops[1..], stuck, write);
    }
  }

  lemma UnstuckDrainSettles(s: State, stuck: set<CallId>) returns (more: seq<Op>)
    requires InDrain(s) && s.snapshot * s.inFlight * stuck == {}
    ensures Undrained(more, stuck) && Run(s, more).control.results == s.control.results + [true]
  {
    var writes := s.snapshot * s.inFlight;
    var settled := SettleWrites(s, writes);
    RunKeepsSound(s, settled);
    assert Run(s, settled).snapshot * Run(s, settled).inFlight == {};
    assert forall write :: write in writes ==> write !in writes * stuck;
    more := SettleAfter(s, settled, true);
  }

  lemma WaitsForStuckIff(s: State, stuck: set<CallId>)
    requires InDrain(s)
    ensures (forall ops :: Undrained(ops, stuck) ==> Run(s, ops).control.results == s.control.results)
       <==> s.snapshot * s.inFlight * stuck != {}
  {
    if s.snapshot * s.inFlight * stuck == {} {
      var more := UnstuckDrainSettles(s, stuck);
      assert Undrained(more, stuck) && Run(s, more).control.results != s.control.results;
    } else {
      var write :| write in s.snapshot * s.inFlight * stuck;
      forall ops | Undrained(ops, stuck)
        ensures Run(s, ops).control.results == s.control.results
      {
        StuckDrainWaits(s, ops, stuck, write);
      }
    }
  }

  lemma DrainTimerEndsIt(s: State)
    requires Sound(s) && Current(s) == Some(DeadLetterDrain)
    ensures Run(s, [DrainTimerFires, StepSettles(true)]).control.results == s.control.results + [true]
  {
    RunOne(s, DrainTimerFires);
    StepKeepsSound(s, DrainTimerFires);
    var more := SettleAfter(s, [DrainTimerFires], true);
    assert more == [DrainTimerFires, StepSettles(true)];
  }

  /**
   Let some writes never settle. Until its timer fires the drain waits for ever exactly when it
   waits for one of them; and its timer alone is always enough to end it.
   */
  lemma DrainHangsIff(
    metricsServer: bool, queueEvents: bool, workers: set<WorkerId>, before: seq<Op>, stuck: set<CallId>)
    ensures var s := Run(Initial(metricsServer, queueEvents, workers), before);
            Current(s) == Some(DeadLetterDrain) ==>
              && Run(s, [DrainTimerFires, StepSettles(true)]).control.results == s.control.results + [true]
              && (!s.drainTimedOut ==>
                    ((forall ops :: Undrained(ops, stuck) ==> Run(s, ops).control.results == s.control.results)
                     <==> s.snapshot * s.inFlight * stuck != {}))
  {
    var s := Reached(metricsServer, queueEvents, workers, before);
    if Current(s) == Some(DeadLetterDrain) {
      DrainTimerEndsIt(s);
      if !s.drainTimedOut {
        WaitsForStuckIff(s, stuck);
      }
    }
  }
}
