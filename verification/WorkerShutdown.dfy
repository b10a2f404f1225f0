/**
 The worker process going down: its ordered steps, composed with the workers that still settle
 jobs and with the dead-letter writes those jobs trigger.

 A worker's close settles once: it resolves when the worker holds no job, or it rejects. A
 `failed` event is emitted before its job leaves the worker, and the stalled checker may emit
 one until the worker has closed. The drain waits for the writes in flight when it starts, or
 for its own timeout. The workers' connections, the servers, the queues and the Redis connection
 keep the event loop alive until the step that closes each has started, and Redis is closed last.
 */
module WorkerShutdown {
  import opened Wrappers
  import Control = GracefulShutdown

  type WorkerId = nat
  type CallId = nat

  datatype StepName = MarkDraining | Workers | DeadLetterDrain | MetricsServer | QueueEvents | Queues | Redis

  const WORKERS_STEP: nat := 1
  const DRAIN_STEP: nat := 2

  function Steps(metricsServer: bool, queueEvents: bool): seq<StepName> {
    [MarkDraining, Workers, DeadLetterDrain]
    + (if metricsServer then [MetricsServer] else [])
    + (if queueEvents then [QueueEvents] else [])
    + [Queues, Redis]
  }

  datatype Worker = Worker(active: nat, closing: bool, closed: bool, closeFailed: bool)

  /** `begun`, history: every write ever begun. `snapshot`: the writes the drain waits for. */
  datatype State = State(
    steps: seq<StepName>,
    control: Control.State,
    shuttingDown: bool,
    workers: map<WorkerId, Worker>,
    inFlight: set<CallId>,
    begun: set<CallId>,
    snapshot: set<CallId>,
    drainTimedOut: bool)

  datatype Op =
    | Signal
    | DeadlineFires
    | GraceFires
    | HandleCloses(step: nat)
    | LoopEmpties
    | DrainTimerFires
    | JobFetched(w: WorkerId)
    | JobSettles(w: WorkerId)
    | JobFailsForGood(w: WorkerId, write: CallId)
    | StalledJobFails(w: WorkerId, write: CallId)
    | WriteSettles(write: CallId)
    | WorkerCloses(w: WorkerId)
    | WorkerCloseFails(w: WorkerId)
    | StepSettles(ok: bool)

  /** The steps that close something: all but the flag and the drain. */
  function Handles(steps: seq<StepName>): set<nat> {
    set i: nat | i < |steps| && steps[i] != MarkDraining && steps[i] != DeadLetterDrain
  }

  function Initial(metricsServer: bool, queueEvents: bool, workers: set<WorkerId>): State {
    var steps := Steps(metricsServer, queueEvents);
    var idle := map w | w in workers :: Worker(0, false, false, false);
    State(steps, Control.Initial(|steps|, Handles(steps)), false, idle, {}, {}, {}, false)
  }

  /** The step that has started and not settled. */
  function Current(s: State): Option<StepName> {
    if |s.control.results| < s.control.started <= |s.steps| then Some(s.steps[|s.control.results|]) else None
  }

  /** When a step's promise can settle, and how. */
  predicate CanSettle(s: State, ok: bool) {
    match Current(s)
    case None => false
    case Some(MarkDraining) => ok
    case Some(Workers) =>
      if ok then forall w :: w in s.workers ==> s.workers[w].closed
      else exists w :: w in s.workers && s.workers[w].closeFailed
    case Some(DeadLetterDrain) => ok && (s.snapshot * s.inFlight == {} || s.drainTimedOut)
    case Some(_) => true
  }

  /** The worker's close has begun and has neither resolved nor rejected. */
  predicate Closing(s: State, w: WorkerId) {
    w in s.workers && s.workers[w].closing && !s.workers[w].closed && !s.workers[w].closeFailed
  }

  predicate Enabled(s: State, op: Op) {
    && !s.control.ended
    && match op
       case Signal => true
       case DeadlineFires => true
       case GraceFires => true
       case HandleCloses(_) => true
       case LoopEmpties => true
       case DrainTimerFires => Current(s) == Some(DeadLetterDrain)
       case JobFetched(w) => w in s.workers && !s.workers[w].closing
       case JobSettles(w) => w in s.workers && s.workers[w].active > 0
       case JobFailsForGood(w, write) => w in s.workers && s.workers[w].active > 0 && write !in s.begun
       case StalledJobFails(w, write) => w in s.workers && !s.workers[w].closed && write !in s.begun
       case WriteSettles(write) => write in s.inFlight
       case WorkerCloses(w) => Closing(s, w) && s.workers[w].active == 0
       case WorkerCloseFails(w) => Closing(s, w)
       case StepSettles(ok) => CanSettle(s, ok)
  }

  /** What starting a step does at once. */
  function Enter(s: State): State {
    match Current(s)
    case Some(MarkDraining) => s.(shuttingDown := true)
    case Some(Workers) => s.(workers := map w | w in s.workers :: s.workers[w].(closing := true))
    case Some(DeadLetterDrain) => s.(snapshot := s.inFlight)
    case _ => s
  }

  /** The controller moves, and the next step starts in the same task if it moved on to one. */
  function Drive(s: State, op: Control.Op): State {
    var t := s.(control := Control.Step(s.control, op));
    if t.control.started > s.control.started then Enter(t) else t
  }

  function WithWorker(s: State, w: WorkerId, worker: Worker): State {
    s.(workers := s.workers[w := worker])
  }

  function BeginWrite(s: State, write: CallId): State {
    s.(inFlight := s.inFlight + {write}, begun := s.begun + {write})
  }

  function Step(s: State, op: Op): State {
    if !Enabled(s, op) then s
    else match op
      case Signal => Drive(s, Control.Shutdown)
      case DeadlineFires => Drive(s, Control.DeadlineFires)
      case GraceFires => Drive(s, Control.GraceFires)
      case HandleCloses(step) => Drive(s, Control.Releases(step))
      case LoopEmpties => Drive(s, Control.LoopEmpties)
      case DrainTimerFires => s.(drainTimedOut := true)
      case JobFetched(w) => WithWorker(s, w, s.workers[w].(active := s.workers[w].active + 1))
      case JobSettles(w) => WithWorker(s, w, s.workers[w].(active := s.workers[w].active - 1))
      case JobFailsForGood(w, write) =>
        BeginWrite(WithWorker(s, w, s.workers[w].(active := s.workers[w].active - 1)), write)
      case StalledJobFails(w, write) => BeginWrite(s, write)
      case WriteSettles(write) => s.(inFlight := s.inFlight - {write})
      case WorkerCloses(w) => WithWorker(s, w, s.workers[w].(closed := true))
      case WorkerCloseFails(w) => WithWorker(s, w, s.workers[w].(closeFailed := true))
      case StepSettles(ok) => Drive(s, Control.StepSettles(ok))
  }

  function Run(s: State, ops: seq<Op>): State
    decreases |ops|
  {
    if ops == [] then s else Run(Step(s, ops[0]), ops[1..])
  }

  predicate WorkersClosed(s: State) {
    |s.control.results| > WORKERS_STEP && s.control.results[WORKERS_STEP]
  }

  /** Where the steps that matter here stand, whichever optional steps there are. */
  ghost predicate Ordered(steps: seq<StepName>) {
    && |steps| >= 5
    && forall i :: 0 <= i < |steps| ==>
         && (steps[i] == MarkDraining <==> i == 0)
         && (steps[i] == Workers <==> i == WORKERS_STEP)
         && (steps[i] == DeadLetterDrain <==> i == DRAIN_STEP)
         && (steps[i] == Queues <==> i == |steps| - 2)
         && (steps[i] == Redis <==> i == |steps| - 1)
  }

  ghost predicate WellFormed(s: State) {
    && Control.Invariant(s.control)
    && s.control.steps == |s.steps|
    && Ordered(s.steps)
    && s.inFlight <= s.begun
    && s.snapshot <= s.begun
    && (s.control.started < |s.steps| ==> |s.steps| - 1 in s.control.handles)
    && (forall w :: w in s.workers && s.workers[w].closed ==> s.workers[w].closing && s.workers[w].active == 0)
    && (forall w :: w in s.workers && s.workers[w].closeFailed ==> !s.workers[w].closed)
  }

  /** Once the workers step succeeded, no write begins; once the drain did, none it waited for is left. */
  ghost predicate Drained(s: State) {
    && (WorkersClosed(s) ==> forall w :: w in s.workers ==> s.workers[w].closed)
    && (WorkersClosed(s) && s.control.started > DRAIN_STEP ==> s.inFlight <= s.snapshot)
    && (|s.control.results| > DRAIN_STEP && !s.drainTimedOut ==> s.snapshot * s.inFlight == {})
  }

  lemma StepsAreOrdered(metricsServer: bool, queueEvents: bool)
    ensures Ordered(Steps(metricsServer, queueEvents))
    ensures var steps := Steps(metricsServer, queueEvents);
            && |steps| == 5 + (if metricsServer then 1 else 0) + (if queueEvents then 1 else 0)
            && (forall i :: 0 <= i < |steps| ==> (steps[i] == MetricsServer <==> metricsServer && i == 3))
            && (forall i :: 0 <= i < |steps| ==> (steps[i] == QueueEvents <==> queueEvents && i == |steps| - 3))
  {
  }

  /** Entering a step fixes the drain's snapshot, or closes workers to new jobs, and otherwise changes nothing here. */
  lemma EnterKeepsInvariants(s: State)
    requires WellFormed(s) && s.control.started == |s.control.results| + 1
    requires WorkersClosed(s) ==> forall w :: w in s.workers ==> s.workers[w].closed
    requires |s.control.results| > DRAIN_STEP ==> Drained(s)
    ensures WellFormed(Enter(s)) && Drained(Enter(s))
  {
  }

  lemma MovingKeepsInvariants(s: State, op: Control.Op)
    requires WellFormed(s)
    ensures WellFormed(s.(control := Control.Step(s.control, op)))
  {
    Control.StepKeepsInvariant(s.control, op);
    if Control.Step(s.control, op).started < |s.steps| {
      Control.StepKeepsUnstarted(s.control, op, |s.steps| - 1);
    }
  }

  lemma DriveKeepsInvariants(s: State, op: Control.Op)
    requires WellFormed(s) && Drained(s)
    requires op.StepSettles? ==> CanSettle(s, op.ok)
    ensures WellFormed(Drive(s, op)) && Drained(Drive(s, op))
  {
    MovingKeepsInvariants(s, op);
    var t := s.(control := Control.Step(s.control, op));
    if t.control.started > s.control.started {
      EnterKeepsInvariants(t);
    }
  }

  lemma JobsKeepInvariants(s: State, op: Op)
    requires WellFormed(s) && Drained(s)
    requires op.JobFetched? || op.JobSettles? || op.JobFailsForGood? || op.StalledJobFails?
    ensures WellFormed(Step(s, op)) && Drained(Step(s, op))
  {
  }

  lemma ClosingKeepsInvariants(s: State, op: Op)
    requires WellFormed(s) && Drained(s) && (op.WorkerCloses? || op.WorkerCloseFails?)
    ensures WellFormed(Step(s, op)) && Drained(Step(s, op))
  {
  }

  lemma WritesKeepInvariants(s: State, op: Op)
    requires WellFormed(s) && Drained(s) && (op.WriteSettles? || op.DrainTimerFires?)
    ensures WellFormed(Step(s, op)) && Drained(Step(s, op))
  {
  }

  lemma StepKeepsInvariants(s: State, op: Op)
    requires WellFormed(s) && Drained(s)
    ensures WellFormed(Step(s, op)) && Drained(Step(s, op))
  {
    match op
    case Signal => DriveKeepsInvariants(s, Control.Shutdown);
    case DeadlineFires => DriveKeepsInvariants(s, Control.DeadlineFires);
    case GraceFires => DriveKeepsInvariants(s, Control.GraceFires);
    case HandleCloses(step) => DriveKeepsInvariants(s, Control.Releases(step));
    case LoopEmpties => DriveKeepsInvariants(s, Control.LoopEmpties);
    case StepSettles(ok) =>
      if CanSettle(s, ok) {
        DriveKeepsInvariants(s, Control.StepSettles(ok));
      }
    case WorkerCloses(_) => ClosingKeepsInvariants(s, op);
    case WorkerCloseFails(_) => ClosingKeepsInvariants(s, op);
    case WriteSettles(_) => WritesKeepInvariants(s, op);
    case DrainTimerFires => WritesKeepInvariants(s, op);
    case _ => JobsKeepInvariants(s, op);
  }

  /** Draining is announced by the first step, and workers stop taking jobs with the second. */
  ghost predicate Draining(s: State) {
    && (s.shuttingDown <==> s.control.started > 0)
    && (forall w :: w in s.workers ==> (s.workers[w].closing <==> s.control.started > WORKERS_STEP))
  }

  lemma EnterKeepsDraining(s: State)
    requires Ordered(s.steps) && s.control.started == |s.control.results| + 1 <= |s.steps|
    requires s.shuttingDown <==> s.control.started - 1 > 0
    requires forall w :: w in s.workers ==> (s.workers[w].closing <==> s.control.started - 1 > WORKERS_STEP)
    ensures Draining(Enter(s))
  {
    assert Current(s) == Some(s.steps[|s.control.results|]);
  }

  lemma DriveKeepsDraining(s: State, op: Control.Op)
    requires WellFormed(s) && Draining(s)
    ensures Draining(Drive(s, op))
  {
    Control.StepKeepsInvariant(s.control, op);
    var t := s.(control := Control.Step(s.control, op));
    if t.control.started > s.control.started {
      assert t.control.started == s.control.started + 1;
      EnterKeepsDraining(t);
    }
  }

  lemma StepKeepsDraining(s: State, op: Op)
    requires WellFormed(s) && Draining(s)
    ensures Draining(Step(s, op))
  {
    match op
    case Signal => DriveKeepsDraining(s, Control.Shutdown);
    case DeadlineFires => DriveKeepsDraining(s, Control.DeadlineFires);
    case GraceFires => DriveKeepsDraining(s, Control.GraceFires);
    case HandleCloses(step) => DriveKeepsDraining(s, Control.Releases(step));
    case LoopEmpties => DriveKeepsDraining(s, Control.LoopEmpties);
    case StepSettles(ok) => DriveKeepsDraining(s, Control.StepSettles(ok));
    case _ =>
  }

  ghost predicate SomeCloseFailed(s: State) {
    exists w :: w in s.workers && s.workers[w].closeFailed
  }

  /** If the workers step failed, a worker's close did. */
  ghost predicate Accounted(s: State) {
    |s.control.results| > WORKERS_STEP && !s.control.results[WORKERS_STEP] ==> SomeCloseFailed(s)
  }

  /** What an event is to the shutdown controller. */
  function ControlOp(s: State, op: Op): Option<Control.Op> {
    if !Enabled(s, op) then None
    else match op
      case Signal => Some(Control.Shutdown)
      case DeadlineFires => Some(Control.DeadlineFires)
      case GraceFires => Some(Control.GraceFires)
      case HandleCloses(step) => Some(Control.Releases(step))
      case LoopEmpties => Some(Control.LoopEmpties)
      case StepSettles(ok) => Some(Control.StepSettles(ok))
      case _ => None
  }

  /** The shutdown steps begin the workers' closes and do not decide them. */
  lemma DriveDecidesNoClose(s: State, op: Control.Op)
    ensures Drive(s, op).workers.Keys == s.workers.Keys
    ensures forall w :: w in s.workers ==> Drive(s, op).workers[w].closeFailed == s.workers[w].closeFailed
  {
  }

  lemma StepFixesWorkers(s: State, op: Op)
    ensures Step(s, op).workers.Keys == s.workers.Keys
  {
    if ControlOp(s, op).Some? {
      DriveDecidesNoClose(s, ControlOp(s, op).value);
    }
  }

  /** A worker's close fails only by its own event, and stays failed. */
  lemma StepMovesCloseFailures(s: State, op: Op, w: WorkerId)
    requires w in s.workers
    ensures w in Step(s, op).workers
    ensures Step(s, op).workers[w].closeFailed
         == (s.workers[w].closeFailed || (Enabled(s, op) && op == WorkerCloseFails(w)))
  {
    if ControlOp(s, op).Some? {
      DriveDecidesNoClose(s, ControlOp(s, op).value);
    }
  }

  lemma StepKeepsCloseFailures(s: State, op: Op)
    requires SomeCloseFailed(s)
    ensures SomeCloseFailed(Step(s, op))
  {
    var w :| w in s.workers && s.workers[w].closeFailed;
    StepMovesCloseFailures(s, op, w);
  }

  lemma DriveMovesControl(s: State, op: Control.Op)
    ensures Drive(s, op).control == Control.Step(s.control, op)
  {
  }

  /** The process moves its controller as the controller moves itself, and not otherwise. */
  lemma StepMovesControl(s: State, op: Op)
    ensures ControlOp(s, op).None? ==> Step(s, op).control == s.control
    ensures ControlOp(s, op).Some? ==> Step(s, op).control == Control.Step(s.control, ControlOp(s, op).value)
  {
    if ControlOp(s, op).Some? {
      DriveMovesControl(s, ControlOp(s, op).value);
    }
  }

  /** Only a step that can settle adds a result. */
  lemma StepAddsResult(s: State, op: Op)
    ensures Step(s, op).control.results == s.control.results
            || (op.StepSettles? && CanSettle(s, op.ok) && Step(s, op).control.results == s.control.results + [op.ok])
  {
    StepMovesControl(s, op);
  }

  lemma StepKeepsAccounted(s: State, op: Op)
    requires WellFormed(s) && Accounted(s)
    ensures Accounted(Step(s, op))
  {
    StepAddsResult(s, op);
    if SomeCloseFailed(s) {
      StepKeepsCloseFailures(s, op);
    }
  }

  // ------------------------------------------------------------ over all runs

  /** What every reachable state is. */
  ghost predicate Sound(s: State) {
    WellFormed(s) && Drained(s) && Draining(s) && Accounted(s)
  }

  lemma StepKeepsSound(s: State, op: Op)
    requires Sound(s)
    ensures Sound(Step(s, op))
  {
    StepKeepsInvariants(s, op);
    StepKeepsDraining(s, op);
    StepKeepsAccounted(s, op);
  }

  lemma {:induction false} RunKeepsSound(s: State, ops: seq<Op>)
    requires Sound(s)
    ensures Sound(Run(s, ops))
    decreases |ops|
  {
    if ops != [] {
      StepKeepsSound(s, ops[0]);
      RunKeepsSound(Step(s, ops[0]), ops[1..]);
    }
  }

  lemma Reached(metricsServer: bool, queueEvents: bool, workers: set<WorkerId>, ops: seq<Op>) returns (s: State)
    ensures s == Run(Initial(metricsServer, queueEvents, workers), ops) && Sound(s)
  {
    var start := Initial(metricsServer, queueEvents, workers);
    StepsAreOrdered(metricsServer, queueEvents);
    RunKeepsSound(start, ops);
    s := Run(start, ops);
  }

  /** A step has started. */
  predicate HasStarted(s: State, name: StepName) {
    exists i :: 0 <= i < |s.steps| && i < s.control.started && s.steps[i] == name
  }

  /**
   Whenever the queues step has started and the drain was not cut short, every write begun
   before the drain has settled; and if the workers closed, every write ever begun has. The
   global deadline does not matter.
   */
  lemma WritesSettleBeforeQueuesClose(metricsServer: bool, queueEvents: bool, workers: set<WorkerId>, ops: seq<Op>)
    ensures var s := Run(Initial(metricsServer, queueEvents, workers), ops);
            HasStarted(s, Queues) && !s.drainTimedOut ==>
              s.snapshot * s.inFlight == {} && (WorkersClosed(s) ==> s.inFlight == {})
  {
    var s := Reached(metricsServer, queueEvents, workers, ops);
    if HasStarted(s, Queues) && !s.drainTimedOut {
      assert |s.control.results| > DRAIN_STEP;
      assert s.snapshot * s.inFlight == {};
      if WorkersClosed(s) {
        assert s.inFlight == s.snapshot * s.inFlight;
      }
    }
  }

  /** The writes have begun and, once the drain has started, it waits for those of them in flight. */
  ghost predicate Tracked(s: State, writes: set<CallId>) {
    writes <= s.begun && (s.control.started > DRAIN_STEP ==> writes * s.inFlight <= s.snapshot)
  }

  lemma EnteringTracks(s: State, writes: set<CallId>)
    requires Ordered(s.steps) && s.control.started == |s.control.results| + 1 <= |s.steps|
    requires writes <= s.begun && (s.control.started > DRAIN_STEP + 1 ==> writes * s.inFlight <= s.snapshot)
    ensures Tracked(Enter(s), writes)
  {
    assert Current(s) == Some(s.steps[|s.control.results|]);
  }

  lemma DriveTracks(s: State, op: Control.Op, writes: set<CallId>)
    requires WellFormed(s) && Tracked(s, writes)
    ensures Tracked(Drive(s, op), writes)
  {
    Control.StepKeepsInvariant(s.control, op);
    var t := s.(control := Control.Step(s.control, op));
    if t.control.started > s.control.started {
      EnteringTracks(t, writes);
    }
  }

  lemma StepTracks(s: State, op: Op, writes: set<CallId>)
    requires WellFormed(s) && Tracked(s, writes)
    ensures Tracked(Step(s, op), writes)
  {
    if ControlOp(s, op).Some? {
      DriveTracks(s, ControlOp(s, op).value, writes);
    }
  }

  lemma {:induction false} RunTracks(s: State, ops: seq<Op>, writes: set<CallId>)
    requires Sound(s) && Tracked(s, writes)
    ensures Tracked(Run(s, ops), writes)
    decreases |ops|
  {
    if ops != [] {
      StepKeepsSound(s, ops[0]);
      StepTracks(s, ops[0], writes);
      RunTracks(Step(s, ops[0]), ops[1..], writes);
    }
  }

  /**
   In every run, whether or not the workers closed: a write that had begun before the drain
   started is not in flight once the step after the drain has started, unless the drain was cut
   short. So at the end of the run its outcome is known when the queues close.
   */
  lemma EarlierWritesSettleBeforeQueuesClose(
    metricsServer: bool, queueEvents: bool, workers: set<WorkerId>, before: seq<Op>, ops: seq<Op>)
    ensures var s := Run(Initial(metricsServer, queueEvents, workers), before); var t := Run(s, ops);
            !HasStarted(s, DeadLetterDrain) && !t.drainTimedOut
            && (HasStarted(t, MetricsServer) || HasStarted(t, QueueEvents) || HasStarted(t, Queues)) ==>
              s.begun * t.inFlight == {}
  {
    var s := Reached(metricsServer, queueEvents, workers, before);
    var t := Run(s, ops);
    if !HasStarted(s, DeadLetterDrain) && !t.drainTimedOut
       && (HasStarted(t, MetricsServer) || HasStarted(t, QueueEvents) || HasStarted(t, Queues)) {
      assert s.steps[DRAIN_STEP] == DeadLetterDrain;
      RunTracks(s, ops, s.begun);
      RunKeepsSound(s, ops);
      assert |t.control.results| > DRAIN_STEP;
      assert s.begun * t.inFlight <= t.snapshot * t.inFlight;
    }
  }

  /** Nothing but its own timer cuts the drain short. */
  lemma {:induction false} OnlyItsTimerCutsTheDrain(s: State, ops: seq<Op>)
    requires !s.drainTimedOut && DrainTimerFires !in ops
    ensures !Run(s, ops).drainTimedOut
    decreases |ops|
  {
    if ops != [] {
      if ControlOp(s, ops[0]).Some? {
        DriveKeepsDrainTimer(s, ControlOp(s, ops[0]).value);
      }
      OnlyItsTimerCutsTheDrain(Step(s, ops[0]), ops[1..]);
    }
  }

  lemma DriveKeepsDrainTimer(s: State, op: Control.Op)
    ensures Drive(s, op).drainTimedOut == s.drainTimedOut
  {
  }

  /** A write that a failed job triggers is in flight until it settles, whatever else happens. */
  lemma {:induction false} WriteStaysUntilSettled(s: State, ops: seq<Op>, write: CallId)
    requires write in s.inFlight && WriteSettles(write) !in ops
    ensures write in Run(s, ops).inFlight
    decreases |ops|
  {
    if ops != [] {
      if ControlOp(s, ops[0]).Some? {
        DriveKeepsWrites(s, ControlOp(s, ops[0]).value);
      }
      WriteStaysUntilSettled(Step(s, ops[0]), ops[1..], write);
    }
  }

  lemma DriveKeepsWrites(s: State, op: Control.Op)
    ensures Drive(s, op).inFlight == s.inFlight && Drive(s, op).begun == s.begun
  {
  }

  /** A job that fails for good begins its write, on whatever worker and at whatever point of the shutdown. */
  lemma FailedJobBeginsItsWrite(s: State, w: WorkerId, write: CallId)
    requires w in s.workers && write !in s.begun && !s.control.ended
    ensures s.workers[w].active > 0 ==>
              var t := Step(s, JobFailsForGood(w, write));
              && t.inFlight == s.inFlight + {write} && t.begun == s.begun + {write}
              && t.workers[w].active == s.workers[w].active - 1
    ensures !s.workers[w].closed ==>
              var t := Step(s, StalledJobFails(w, write));
              t.inFlight == s.inFlight + {write} && t.begun == s.begun + {write} && t.workers == s.workers
  {
  }

  /** The drain waits for exactly the writes that are in flight as it starts. */
  lemma DrainWaitsForAllInFlight(
    metricsServer: bool, queueEvents: bool, workers: set<WorkerId>, before: seq<Op>, op: Op)
    ensures var s := Run(Initial(metricsServer, queueEvents, workers), before); var t := Step(s, op);
            !HasStarted(s, DeadLetterDrain) && HasStarted(t, DeadLetterDrain) ==>
              t.snapshot == t.inFlight == s.inFlight && Current(t) == Some(DeadLetterDrain)
  {
    var s := Reached(metricsServer, queueEvents, workers, before);
    var t := Step(s, op);
    if !HasStarted(s, DeadLetterDrain) && HasStarted(t, DeadLetterDrain) {
      assert s.steps[DRAIN_STEP] == DeadLetterDrain;
      assert s.control.started <= DRAIN_STEP;
      StepKeepsSound(s, op);
      StepMovesControl(s, op);
    }
  }

  /** Redis closes only after every other step has settled, whether it succeeded or not. */
  lemma RedisClosesLast(metricsServer: bool, queueEvents: bool, workers: set<WorkerId>, ops: seq<Op>)
    ensures var s := Run(Initial(metricsServer, queueEvents, workers), ops);
            HasStarted(s, Redis) ==> |s.control.results| >= |s.steps| - 1
  {
    var s := Reached(metricsServer, queueEvents, workers, ops);
  }

  /** Until a signal arrives every worker takes jobs; draining has been announced before the first of them stops. */
  lemma DrainingIsMarkedFirst(metricsServer: bool, queueEvents: bool, workers: set<WorkerId>, ops: seq<Op>)
    ensures var s := Run(Initial(metricsServer, queueEvents, workers), ops);
            && (s.shuttingDown <==> s.control.running)
            && (forall w :: w in s.workers && s.workers[w].closing ==> s.shuttingDown && |s.control.results| > 0)
  {
    var s := Reached(metricsServer, queueEvents, workers, ops);
  }
}
