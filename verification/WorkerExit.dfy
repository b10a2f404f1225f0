/**
 How the worker process ends: that it exits however long a step hangs, and exactly when the code
 it reports after the deadline is certain to be 1.
 */
module WorkerExit {
  import opened Wrappers
  import opened WorkerShutdown
  import opened WorkerShutdownLimits

  // ---------------------------------------------------- the controller's promises

  /** Whatever jobs, writes and workers do, the controller goes through one of its own runs. */
  lemma {:induction false} ControllerRuns(s: State, ops: seq<Op>) returns (own: seq<Control.Op>)
    ensures Run(s, ops).control == Control.Run(s.control, own)
    decreases |ops|
  {
    own := [];
    if ops != [] {
      StepMovesControl(s, ops[0]);
      own := ControllerRuns(Step(s, ops[0]), ops[1..]);
      if ControlOp(s, ops[0]).Some? {
        var first := ControlOp(s, ops[0]).value;
        assert ([first] + own)[1..] == own;
        own := [first] + own;
      }
    }
  }

  /**
   So the process exits however long its steps hang: until it is gone a timer is live, the
   deadline's leads to an exit with code 1, and it exits at most once.
   */
  lemma HangingProcessExits(metricsServer: bool, queueEvents: bool, workers: set<WorkerId>, ops: seq<Op>)
    ensures var s := Run(Initial(metricsServer, queueEvents, workers), ops);
            && (s.control.running && Control.ExitCode(s.control).None? ==> s.control.timerLive || s.control.graceLive)
            && (s.control.timerLive ==> Run(s, [DeadlineFires, GraceFires]).control.exits == [1])
            && (s.control.graceLive && !s.control.ended ==> |Step(s, GraceFires).control.exits| == 1)
            && |s.control.exits| <= 1
  {
    var start := Initial(metricsServer, queueEvents, workers);
    var own := ControllerRuns(start, ops);
    Control.RunningLeadsToExit(|start.steps|, Handles(start.steps), own);
    Control.ExitsOnce(|start.steps|, Handles(start.steps), own);
    var s := Run(start, ops);
    Control.RunKeepsInvariant(Control.Initial(|start.steps|, Handles(start.steps)), own);
    StepMovesControl(s, DeadlineFires);
    StepMovesControl(s, GraceFires);
    RunFirst(s, DeadlineFires, [GraceFires]);
    RunOne(Step(s, DeadlineFires), GraceFires);
    StepMovesControl(Step(s, DeadlineFires), GraceFires);
  }

  // ------------------------------------------------------------ the code reported

  /** The running step never settles. */
  predicate NoneSettles(ops: seq<Op>) {
    forall op :: op in ops ==> !op.StepSettles?
  }

  /** Code 0 is for a shutdown that completed or a process with nothing open, and either has started to close Redis. */
  lemma ZeroNeedsRedisStarted(s: State)
    requires Sound(s) && Control.ExitCode(s.control) == Some(0)
    ensures s.control.started == |s.steps|
  {
  }

  lemma StepFixesSteps(s: State, op: Op)
    ensures Step(s, op).steps == s.steps
  {
    if ControlOp(s, op).Some? {
      DriveFixesSteps(s, ControlOp(s, op).value);
    }
  }

  lemma DriveFixesSteps(s: State, op: Control.Op)
    ensures Drive(s, op).steps == s.steps
  {
  }

  lemma {:induction false} StartedStaysRunning(s: State, ops: seq<Op>)
    requires s.control.running
    ensures Run(s, ops).control.running && Run(s, ops).steps == s.steps
    decreases |ops|
  {
    if ops != [] {
      StepMovesControl(s, ops[0]);
      StepFixesSteps(s, ops[0]);
      StartedStaysRunning(Step(s, ops[0]), ops[1..]);
    }
  }

  lemma {:induction false} NothingSettled(s: State, ops: seq<Op>)
    requires NoneSettles(ops)
    ensures Run(s, ops).control.results == s.control.results
    decreases |ops|
  {
    if ops != [] {
      StepAddsResult(s, ops[0]);
      NothingSettled(Step(s, ops[0]), ops[1..]);
    }
  }

  /** What the controller can do without a step settling, the process can do. */
  lemma {:induction false} OwnRunLifts(s: State, own: seq<Control.Op>) returns (ops: seq<Op>)
    requires !s.control.ended && forall op :: op in own ==> op.Releases? || op.LoopEmpties?
    ensures NoneSettles(ops) && Run(s, ops).control == Control.Run(s.control, own)
    decreases |own|
  {
    ops := [];
    if own != [] {
      var op := if own[0].Releases? then HandleCloses(own[0].step) else LoopEmpties;
      StepMovesControl(s, op);
      RunOne(s, op);
      var t := Step(s, op);
      if t.control.ended {
        EndedStays(t.control, own[1..]);
        ops := [op];
      } else {
        var rest := OwnRunLifts(t, own[1..]);
        RunFirst(s, op, rest);
        ops := [op] + rest;
      }
    }
  }

  lemma {:induction false} EndedStays(c: Control.State, own: seq<Control.Op>)
    requires c.ended
    ensures Control.Run(c, own) == c
    decreases |own|
  {
    if own != [] {
      EndedStays(c, own[1..]);
    }
  }

  /**
   After the deadline, with the running step hung for good, code 1 is certain exactly while the
   redis step has not started.
   */
  lemma TimedOutReportsOneIff(metricsServer: bool, queueEvents: bool, workers: set<WorkerId>, before: seq<Op>)
    ensures var s := Run(Initial(metricsServer, queueEvents, workers), before);
            s.control.outcome == Some(Control.TimedOut) && Control.ExitCode(s.control).None? ==>
              ((forall ops :: NoneSettles(ops) ==> Control.ExitCode(Run(s, ops).control) != Some(0))
               <==> s.control.started < |s.steps|)
  {
    var s := Reached(metricsServer, queueEvents, workers, before);
    if s.control.outcome == Some(Control.TimedOut) && Control.ExitCode(s.control).None? {
      if s.control.started < |s.steps| {
        forall ops | NoneSettles(ops)
          ensures Control.ExitCode(Run(s, ops).control) != Some(0)
        {
          HungNeverReportsZero(s, ops);
        }
      } else {
        HandlesAreOfSteps(metricsServer, queueEvents, workers, before);
        var own := Control.EndsByItself(s.control, false);
        var ops := OwnRunLifts(s, own);
        assert NoneSettles(ops) && Control.ExitCode(Run(s, ops).control) == Some(0);
      }
    }
  }

  lemma HungNeverReportsZero(s: State, ops: seq<Op>)
    requires Sound(s) && s.control.running && s.control.started < |s.steps| && NoneSettles(ops)
    ensures Control.ExitCode(Run(s, ops).control) != Some(0)
  {
    RunKeepsSound(s, ops);
    NothingSettled(s, ops);
    StartedStaysRunning(s, ops);
    if Control.ExitCode(Run(s, ops).control) == Some(0) {
      ZeroNeedsRedisStarted(Run(s, ops));
    }
  }

  lemma HandlesAreOfSteps(metricsServer: bool, queueEvents: bool, workers: set<WorkerId>, ops: seq<Op>)
    ensures var s := Run(Initial(metricsServer, queueEvents, workers), ops);
            forall step :: step in s.control.handles ==> step < |s.steps|
  {
    var start := Initial(metricsServer, queueEvents, workers);
    HandlesOnlyClose(start, ops);
  }

  lemma {:induction false} HandlesOnlyClose(s: State, ops: seq<Op>)
    ensures Run(s, ops).control.handles <= s.control.handles && Run(s, ops).steps == s.steps
    decreases |ops|
  {
    if ops != [] {
      StepMovesControl(s, ops[0]);
      StepFixesSteps(s, ops[0]);
      HandlesOnlyClose(Step(s, ops[0]), ops[1..]);
    }
  }

  /** No worker and no write to wait for, in the middle of a step. */
  ghost predicate Idle(s: State) {
    && Sound(s) && s.workers == map[] && s.inFlight == {}
    && s.control.timerLive && s.control.started == |s.control.results| + 1
  }

  lemma IdleCanSettle(s: State)
    requires Idle(s)
    ensures CanSettle(s, true) && Enabled(s, StepSettles(true))
  {
    assert Current(s) == Some(s.steps[|s.control.results|]);
  }

  lemma IdleAdvances(s: State)
    requires Idle(s) && s.control.started < |s.steps|
    ensures var t := Step(s, StepSettles(true));
            Idle(t) && t.steps == s.steps && t.control.started == s.control.started + 1
  {
    IdleCanSettle(s);
    StepKeepsSound(s, StepSettles(true));
    SettlingEnters(s, true);
    var t := Step(s, StepSettles(true));
    EnteringIsLocal(s.(control := t.control));
    assert t.workers.Keys == {};
  }

  lemma EnteringIsLocal(s: State)
    ensures var t := Enter(s);
            t.inFlight == s.inFlight && t.steps == s.steps && t.control == s.control && t.workers.Keys == s.workers.Keys
  {
  }

  /** All steps settle in turn, until Redis is being closed. */
  lemma {:induction false} RedisStarts(s: State, t: State) returns (u: State)
    requires Reaches(s, t) && Idle(t)
    ensures Reaches(s, u) && Idle(u) && u.control.started == |u.steps|
    decreases |t.steps| - t.control.started
  {
    u := t;
    if t.control.started < |t.steps| {
      IdleAdvances(t);
      u := Next(s, t, StepSettles(true));
      u := RedisStarts(s, u);
    }
  }

  lemma SignalStarts(metricsServer: bool, queueEvents: bool) returns (t: State)
    ensures Reaches(Initial(metricsServer, queueEvents, {}), t) && Idle(t)
  {
    var s := Initial(metricsServer, queueEvents, {});
    var same := Reached(metricsServer, queueEvents, {}, []);
    assert Run(s, []) == s;
    t := Next(s, s, Signal);
    StepKeepsSound(s, Signal);
    StepMovesControl(s, Signal);
    StepFixesWorkers(s, Signal);
  }

  /** The deadline passes while Redis is being closed; its connection goes before the grace timer fires: code 0. */
  lemma TimedOutWorkerCanReportZero(metricsServer: bool, queueEvents: bool)
    ensures exists ops ::
              var t := Run(Initial(metricsServer, queueEvents, {}), ops);
              t.control.outcome == Some(Control.TimedOut) && Control.ExitCode(t.control) == Some(0)
  {
    var s := Initial(metricsServer, queueEvents, {});
    var t := SignalStarts(metricsServer, queueEvents);
    t := RedisStarts(s, t);
    var u := Next(s, t, DeadlineFires);
    StepMovesControl(t, DeadlineFires);
    var before :| Run(s, before) == u;
    TimedOutReportsOneIff(metricsServer, queueEvents, {}, before);
    var ops :| NoneSettles(ops) && Control.ExitCode(Run(u, ops).control) == Some(0);
    RunBoth(s, before, ops);
    TimedOutStays(u, ops);
  }

  lemma {:induction false} TimedOutStays(s: State, ops: seq<Op>)
    requires s.control.outcome == Some(Control.TimedOut) && !s.control.timerLive && s.control.running
    ensures Run(s, ops).control.outcome == Some(Control.TimedOut)
    decreases |ops|
  {
    if ops != [] {
      StepMovesControl(s, ops[0]);
      TimedOutStays(Step(s, ops[0]), ops[1..]);
    }
  }

  /**
   A job that outlives the deadline: while a worker holds a job whose handler never settles, and
   no close fails, the process reports nothing but 1, whatever else happens; and until it does, a
   timer is live that leads there.
   */
  lemma JobOutlivingDeadlineReportsOne(
    metricsServer: bool, queueEvents: bool, workers: set<WorkerId>,
    before: seq<Op>, hung: set<WorkerId>, ops: seq<Op>)
    ensures var s := Run(Initial(metricsServer, queueEvents, workers), before); var t := Run(s, ops);
            InWorkersStep(s) && hung != {} && Holds(s, hung) && Hanging(s, ops, hung) ==>
              && (Control.ExitCode(t.control) == None || Control.ExitCode(t.control) == Some(1))
              && (Control.ExitCode(t.control).None? ==> t.control.timerLive || t.control.graceLive)
  {
    var s := Reached(metricsServer, queueEvents, workers, before);
    if InWorkersStep(s) && hung != {} && Holds(s, hung) && Hanging(s, ops, hung) {
      HungStepWaits(s, ops, hung);
      RunKeepsSound(s, ops);
      var t := Run(s, ops);
      StartedStaysRunning(s, ops);
      if Control.ExitCode(t.control) == Some(0) {
        ZeroNeedsRedisStarted(t);
      }
    }
  }
}
