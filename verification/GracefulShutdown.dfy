/**
 The shutdown controller: ordered steps against one deadline, under any sequence of signals.

 One operation is one event-loop task. A call of `shutdown` is such a task: steps do not call
 back into it. A deadline that wins the race does not stop the steps, which go on in order
 until the process exits.

 The deadline's timer keeps the event loop alive; the grace timer before the exit does not. What
 else keeps it alive are handles, such as sockets, each of which one step is there to close: it
 stays open until that step has started, and from then on until the step succeeds or lets it go
 earlier. Once the outcome is decided and no handle is left, the loop has nothing to wait for and
 the process ends by itself, with code 0.
 */
module GracefulShutdown {
  import opened Wrappers

  datatype Outcome = Complete | TimedOut

  datatype StepEvent = Started(step: nat) | Settled(step: nat, ok: bool)

  /**
   `results` are the settled steps' outcomes; `trace`, history, is every start and settlement in
   order; `settledAtDeadline`, history, is how many steps had settled when the deadline fired.
   `handles`: the steps whose handle is open. `ended`: the process ended by itself.
   */
  datatype State = State(
    steps: nat,
    running: bool,
    started: nat,
    results: seq<bool>,
    timerLive: bool,
    outcome: Option<Outcome>,
    graceLive: bool,
    exits: seq<int>,
    handles: set<nat>,
    ended: bool,
    trace: seq<StepEvent>,
    settledAtDeadline: Option<nat>)

  datatype Op =
    | Shutdown
    | StepSettles(ok: bool)
    | DeadlineFires
    | GraceFires
    | Releases(step: nat)
    | LoopEmpties

  function Initial(steps: nat, handles: set<nat>): State {
    State(steps, false, 0, [], false, None, false, [], handles, false, [], None)
  }

  predicate Enabled(s: State, op: Op) {
    && !s.ended
    && match op
       case Shutdown => !s.running
       case StepSettles(_) => |s.results| < s.started
       case DeadlineFires => s.timerLive
       case GraceFires => s.graceLive
       case Releases(step) => step in s.handles && step < s.started
       case LoopEmpties => s.graceLive && !s.timerLive && s.handles == {}
  }

  /** Starts the next step, or ends the loop: its end completes the shutdown unless the deadline has. */
  function NextStep(s: State): State {
    if s.started < s.steps then
      s.(started := s.started + 1, trace := s.trace + [Started(s.started)])
    else if s.outcome.None? then
      s.(outcome := Some(Complete), timerLive := false, graceLive := true)
    else s
  }

  function Step(s: State, op: Op): State {
    if !Enabled(s, op) then s
    else match op
      case Shutdown => NextStep(s.(running := true, timerLive := true))
      case StepSettles(ok) =>
        NextStep(s.(results := s.results + [ok],
                    trace := s.trace + [Settled(|s.results|, ok)],
                    handles := if ok then s.handles - {|s.results|} else s.handles))
      case DeadlineFires =>
        s.(timerLive := false, outcome := Some(TimedOut), graceLive := true, settledAtDeadline := Some(|s.results|))
      case GraceFires =>
        s.(graceLive := false, exits := s.exits + [if s.outcome == Some(TimedOut) then 1 else 0])
      case Releases(step) => s.(handles := s.handles - {step})
      case LoopEmpties => s.(ended := true)
  }

  function Run(s: State, ops: seq<Op>): State
    decreases |ops|
  {
    if ops == [] then s else Run(Step(s, ops[0]), ops[1..])
  }

  /** The only order in which steps may start and settle: 0 starts, 0 settles, 1 starts, ... */
  function Sequential(results: seq<bool>): seq<StepEvent> {
    if results == [] then []
    else
      var n := |results| - 1;
      Sequential(results[..n]) + [Started(n), Settled(n, results[n])]
  }

  ghost predicate Invariant(s: State) {
    && s.trace == Sequential(s.results) + (if s.started > |s.results| then [Started(|s.results|)] else [])
    && |s.results| <= s.started <= s.steps
    && s.started <= |s.results| + 1
    && (!s.running ==> s == Initial(s.steps, s.handles))
    && (s.running && s.started == |s.results| ==> s.started == s.steps && s.outcome.Some?)
    && (s.outcome == Some(Complete) <==> s.running && |s.results| == s.steps && s.settledAtDeadline.None?)
    && (s.outcome == Some(TimedOut) <==> s.settledAtDeadline.Some?)
    && (s.settledAtDeadline.Some? ==> s.settledAtDeadline.value < s.steps && s.settledAtDeadline.value <= |s.results|)
    && (s.timerLive <==> s.running && s.outcome.None?)
    && s.exits == (if s.outcome.Some? && !s.graceLive then [if s.outcome.value.TimedOut? then 1 else 0] else [])
    && (s.graceLive ==> s.outcome.Some?)
    && (s.ended ==> s.graceLive && s.handles == {})
  }

  /** The code the process reports once it is gone: that of its exit, or 0 if it ended by itself. */
  function ExitCode(s: State): Option<int> {
    if s.exits != [] then Some(s.exits[0])
    else if s.ended then Some(0)
    else None
  }

  lemma StepKeepsInvariant(s: State, op: Op)
    requires Invariant(s)
    ensures Invariant(Step(s, op)) && Step(s, op).steps == s.steps
  {
    match op
    case StepSettles(ok) => SettlingKeepsInvariant(s, ok);
    case _ =>
  }

  lemma SettlingKeepsInvariant(s: State, ok: bool)
    requires Invariant(s)
    ensures Invariant(Step(s, StepSettles(ok))) && Step(s, StepSettles(ok)).steps == s.steps
  {
    SequentialGrows(s.results, ok);
    var n := |s.results|;
    assert Sequential(s.results) + [Started(n), Settled(n, ok)]
        == Sequential(s.results) + [Started(n)] + [Settled(n, ok)];
  }

  lemma {:induction false} SequentialGrows(results: seq<bool>, ok: bool)
    ensures Sequential(results + [ok]) == Sequential(results) + [Started(|results|), Settled(|results|, ok)]
  {
    var longer := results + [ok];
    assert longer[..|results|] == results && longer[|results|] == ok;
  }

  /** The handle of a step that has not started stays open. */
  lemma StepKeepsUnstarted(s: State, op: Op, step: nat)
    requires Invariant(s) && step in s.handles && step >= Step(s, op).started
    ensures step in Step(s, op).handles && s.started <= Step(s, op).started
  {
  }

  lemma {:induction false} RunKeepsInvariant(s: State, ops: seq<Op>)
    requires Invariant(s)
    ensures Invariant(Run(s, ops)) && Run(s, ops).steps == s.steps
    decreases |ops|
  {
    if ops != [] {
      StepKeepsInvariant(s, ops[0]);
      RunKeepsInvariant(Step(s, ops[0]), ops[1..]);
    }
  }

  /** In every run, steps start in declared order, each once, and only after the one before has settled. */
  lemma StepsRunInOrder(steps: nat, handles: set<nat>, ops: seq<Op>)
    ensures var s := Run(Initial(steps, handles), ops);
            && s.trace == Sequential(s.results) + (if s.started > |s.results| then [Started(|s.results|)] else [])
            && |s.results| <= s.started <= |s.results| + 1 && s.started <= steps
  {
    RunKeepsInvariant(Initial(steps, handles), ops);
  }

  /** The process exits at most once, and with 0 exactly when every step settled before the deadline. */
  lemma ExitsOnce(steps: nat, handles: set<nat>, ops: seq<Op>)
    ensures var s := Run(Initial(steps, handles), ops);
            && |s.exits| <= 1
            && (s.exits == [0] <==> s.exits != [] && s.settledAtDeadline.None?)
            && (s.exits != [] && s.settledAtDeadline.None? ==> |s.results| == steps)
            && (s.settledAtDeadline.Some? ==> s.settledAtDeadline.value < steps)
  {
    RunKeepsInvariant(Initial(steps, handles), ops);
  }

  /**
   A step that never settles cannot hang the process: until it is gone, a timer is live that
   leads to its exit.
   */
  lemma RunningLeadsToExit(steps: nat, handles: set<nat>, ops: seq<Op>)
    ensures var s := Run(Initial(steps, handles), ops);
            && (s.running && ExitCode(s).None? ==> s.timerLive || s.graceLive)
            && (s.timerLive ==> Step(Step(s, DeadlineFires), GraceFires).exits == [1])
            && (s.graceLive && !s.ended ==> |Step(s, GraceFires).exits| == 1)
            && (s.timerLive ==> Step(s, LoopEmpties) == s)
  {
    RunKeepsInvariant(Initial(steps, handles), ops);
  }

  /** A handle that some step is there to close and is still open: one the step has, or is yet to start with. */
  predicate HeldOpen(s: State, kept: bool) {
    exists step :: step in s.handles && (kept || step >= s.started)
  }

  /** The running step never settles and, if `kept`, nothing lets go of its handle. */
  predicate Hung(ops: seq<Op>, kept: bool) {
    forall op :: op in ops ==> !op.StepSettles? && (kept ==> !op.Releases?)
  }

  lemma StepKeepsHeldOpen(s: State, op: Op, kept: bool)
    requires Invariant(s) && s.outcome == Some(TimedOut) && HeldOpen(s, kept)
    requires !op.StepSettles? && (kept ==> !op.Releases?)
    ensures var t := Step(s, op); t.outcome == Some(TimedOut) && HeldOpen(t, kept)
    ensures ExitCode(s) != Some(0) ==> ExitCode(Step(s, op)) != Some(0)
  {
    var step :| step in s.handles && (kept || step >= s.started);
    var t := Step(s, op);
    assert t.started == s.started && step in t.handles;
  }

  lemma {:induction false} HungReportsOne(s: State, ops: seq<Op>, kept: bool)
    requires Invariant(s) && s.outcome == Some(TimedOut) && HeldOpen(s, kept) && Hung(ops, kept)
    requires ExitCode(s) != Some(0)
    ensures ExitCode(Run(s, ops)) != Some(0)
    decreases |ops|
  {
    if ops != [] {
      StepKeepsInvariant(s, ops[0]);
      StepKeepsHeldOpen(s, ops[0], kept);
      HungReportsOne(Step(s, ops[0]), ops[1..], kept);
    }
  }

  /** Started steps let go of their handles one after the other. */
  lemma {:induction false} LetGo(s: State, open: set<nat>) returns (ops: seq<Op>)
    requires !s.ended && open <= s.handles && forall step :: step in open ==> step < s.started
    ensures Run(s, ops) == s.(handles := s.handles - open)
    ensures forall op :: op in ops ==> op.Releases?
    ensures open == {} ==> ops == []
    decreases open
  {
    ops := [];
    if open == {} {
      assert s.handles - open == s.handles;
    } else {
      var step :| step in open;
      var t := Step(s, Releases(step));
      var rest := LetGo(t, open - {step});
      ops := [Releases(step)] + rest;
      assert ops[1..] == rest;
      assert t.handles - (open - {step}) == s.handles - open;
    }
  }

  lemma {:induction false} RunThen(s: State, ops: seq<Op>, op: Op)
    ensures Run(s, ops + [op]) == Step(Run(s, ops), op)
    decreases |ops|
  {
    if ops == [] {
      assert Run(s, [op]) == Run(Step(s, op), []);
    } else {
      assert (ops + [op])[1..] == ops[1..] + [op];
      RunThen(Step(s, ops[0]), ops[1..], op);
    }
  }

  /** With every handle within reach of a started step, the loop can empty before the grace timer. */
  lemma EndsByItself(s: State, kept: bool) returns (ops: seq<Op>)
    requires Invariant(s) && s.outcome.Some? && ExitCode(s).None? && !HeldOpen(s, kept)
    ensures Hung(ops, kept) && ExitCode(Run(s, ops)) == Some(0)
    ensures forall op :: op in ops ==> op.Releases? || op.LoopEmpties?
  {
    ops := LetGo(s, s.handles);
    RunThen(s, ops, LoopEmpties);
    assert s.handles - s.handles == {};
    ops := ops + [LoopEmpties];
  }

  /**
   A shutdown that overran its deadline is meant to end with code 1. If its step stays hung, it
   cannot end with 0 exactly when a handle is left that cannot be let go: that of a step which
   has not started or, if the hung step and those before it keep theirs, any.
   */
  lemma HungReportsOneIff(steps: nat, handles: set<nat>, before: seq<Op>, kept: bool)
    ensures var s := Run(Initial(steps, handles), before);
            s.outcome == Some(TimedOut) && ExitCode(s).None? ==>
              ((forall ops :: Hung(ops, kept) ==> ExitCode(Run(s, ops)) != Some(0)) <==> HeldOpen(s, kept))
  {
    RunKeepsInvariant(Initial(steps, handles), before);
    var s := Run(Initial(steps, handles), before);
    if s.outcome == Some(TimedOut) && ExitCode(s).None? {
      if HeldOpen(s, kept) {
        forall ops | Hung(ops, kept)
          ensures ExitCode(Run(s, ops)) != Some(0)
        {
          HungReportsOne(s, ops, kept);
        }
      } else {
        var ops := EndsByItself(s, kept);
        assert Hung(ops, kept) && ExitCode(Run(s, ops)) == Some(0);
      }
    }
  }

  /** A first step that hangs while no step holds a handle: the deadline passes, and the code is 0. */
  lemma TimedOutShutdownCanReportZero(steps: nat)
    requires steps > 0
    ensures var s := Run(Initial(steps, {}), [Shutdown, DeadlineFires, LoopEmpties]);
            s.settledAtDeadline == Some(0) && s.results == [] && ExitCode(s) == Some(0)
  {
    var s := Initial(steps, {});
    var t := Step(s, Shutdown);
    var u := Step(t, DeadlineFires);
    assert Run(s, [Shutdown, DeadlineFires, LoopEmpties]) == Run(t, [DeadlineFires, LoopEmpties]);
    assert Run(t, [DeadlineFires, LoopEmpties]) == Run(u, [LoopEmpties]);
    assert Run(u, [LoopEmpties]) == Run(Step(u, LoopEmpties), []);
  }

  function Settlements(results: seq<bool>): seq<Op> {
    if results == [] then []
    else
      var n := |results| - 1;
      Settlements(results[..n]) + [StepSettles(results[n])]
  }

  /** In the middle of a step, well before the deadline. */
  ghost predicate UnderWay(s: State) {
    Invariant(s) && s.running && !s.ended && s.outcome.None? && s.started == |s.results| + 1
  }

  lemma SettlementAdvances(s: State, ok: bool)
    requires UnderWay(s) && s.started < s.steps
    ensures var t := Step(s, StepSettles(ok));
            UnderWay(t) && t.steps == s.steps && t.results == s.results + [ok]
  {
    StepKeepsInvariant(s, StepSettles(ok));
  }

  lemma {:induction false} SettlementsAdvance(s: State, results: seq<bool>)
    requires UnderWay(s) && s.results == [] && |results| < s.steps
    ensures var t := Run(s, Settlements(results)); UnderWay(t) && t.steps == s.steps && t.results == results
    decreases |results|
  {
    if results != [] {
      var n := |results| - 1;
      SettlementsAdvance(s, results[..n]);
      RunThen(s, Settlements(results[..n]), StepSettles(results[n]));
      SettlementAdvances(Run(s, Settlements(results[..n])), results[n]);
      assert results[..n] + [results[n]] == results;
    }
  }

  lemma LastSettlementCompletes(s: State, ok: bool)
    requires UnderWay(s) && s.started == s.steps
    ensures var t := Step(s, StepSettles(ok));
            && t.results == s.results + [ok] && t.outcome == Some(Complete) && !t.timerLive
            && Step(t, GraceFires).exits == [0]
  {
    StepKeepsInvariant(s, StepSettles(ok));
  }

  lemma SettlementsComplete(s: State, results: seq<bool>)
    requires UnderWay(s) && s.results == [] && s.steps == |results|
    ensures var t := Run(s, Settlements(results));
            && t.results == results && t.outcome == Some(Complete) && !t.timerLive
            && Step(t, GraceFires).exits == [0]
  {
    var n := |results| - 1;
    SettlementsAdvance(s, results[..n]);
    RunThen(s, Settlements(results[..n]), StepSettles(results[n]));
    LastSettlementCompletes(Run(s, Settlements(results[..n])), results[n]);
    assert results[..n] + [results[n]] == results;
  }

  /** If every step settles in turn, well or not, before the deadline, the shutdown completes and exits with 0. */
  lemma SettledStepsComplete(handles: set<nat>, results: seq<bool>)
    ensures var s := Run(Initial(|results|, handles), [Shutdown] + Settlements(results));
            && s.results == results && s.outcome == Some(Complete) && !s.timerLive
            && Step(s, GraceFires).exits == [0]
  {
    var s := Initial(|results|, handles);
    var t := Step(s, Shutdown);
    StepKeepsInvariant(s, Shutdown);
    assert ([Shutdown] + Settlements(results))[1..] == Settlements(results);
    assert Run(s, [Shutdown] + Settlements(results)) == Run(t, Settlements(results));
    if results == [] {
      assert Run(t, Settlements(results)) == t;
    } else {
      SettlementsComplete(t, results);
    }
  }

  /** Only the deadline makes a shutdown time out. */
  lemma {:induction false} NoTimeoutBeforeTheDeadline(s: State, ops: seq<Op>)
    requires s.outcome != Some(TimedOut) && s.settledAtDeadline.None? && DeadlineFires !in ops
    ensures Run(s, ops).outcome != Some(TimedOut) && Run(s, ops).settledAtDeadline.None?
    decreases |ops|
  {
    if ops != [] {
      NoTimeoutBeforeTheDeadline(Step(s, ops[0]), ops[1..]);
    }
  }

  /** A run without the calls of `shutdown` that come after its first. */
  function WithoutRepeats(ops: seq<Op>, called: bool): (kept: seq<Op>)
    ensures |kept| <= |ops|
  {
    if ops == [] then []
    else if called && ops[0].Shutdown? then WithoutRepeats(ops[1..], called)
    else [ops[0]] + WithoutRepeats(ops[1..], called || ops[0].Shutdown?)
  }

  /** However many signals arrive, and whenever, the run is the one that only the first of them started. */
  lemma {:induction false} RepeatedSignalsChangeNothing(s: State, ops: seq<Op>)
    requires Invariant(s)
    ensures Run(s, WithoutRepeats(ops, s.running)) == Run(s, ops)
    decreases |ops|
  {
    if ops != [] {
      var t := Step(s, ops[0]);
      StepKeepsInvariant(s, ops[0]);
      RepeatedSignalsChangeNothing(t, ops[1..]);
      if s.running && ops[0].Shutdown? {
        assert t == s;
      } else {
        var kept := WithoutRepeats(ops, s.running);
        assert t.running == (s.running || ops[0].Shutdown?);
        assert kept == [ops[0]] + kept[1..];
      }
    }
  }

  class Controller {
    const steps: nat
    var running: bool
    var started: nat
    var results: seq<bool>
    var timerLive: bool
    var outcome: Option<Outcome>
    var graceLive: bool
    var exits: seq<int>
    ghost var handles: set<nat>   // of the process; no step's code looks at them
    var ended: bool
    ghost var trace: seq<StepEvent>
    ghost var settledAtDeadline: Option<nat>

    constructor (steps: nat, ghost handles: set<nat>)
      ensures View() == Initial(steps, handles)
    {
      this.steps := steps;
      running, started, results, timerLive, outcome, graceLive := false, 0, [], false, None, false;
      exits, ended := [], false;
      this.handles, trace, settledAtDeadline := handles, [], None;
    }

    ghost function View(): State
      reads this
    {
      State(
        steps, running, started, results, timerLive, outcome, graceLive, exits,
        handles, ended, trace, settledAtDeadline)
    }

    method Shutdown()
      requires !ended
      modifies this
      ensures View() == Step(old(View()), Op.Shutdown)
    {
      if running {
        return;
      }
      running := true;
      timerLive := true;
      Advance();
    }

    /** A step's promise settles; a rejection is logged and does not strand the rest. */
    method OnStepSettled(ok: bool)
      requires |results| < started && !ended
      modifies this
      ensures View() == Step(old(View()), StepSettles(ok))
    {
      trace := trace + [Settled(|results|, ok)];
      handles := if ok then handles - {|results|} else handles;
      results := results + [ok];
      Advance();
    }

    method Advance()
      modifies this
      ensures View() == NextStep(old(View()))
    {
      if started < steps {
        trace := trace + [Started(started)];
        started := started + 1;
      } else if outcome.None? {
        Finish(Complete);
      }
    }

    method Finish(result: Outcome)
      modifies this`outcome, this`timerLive, this`graceLive
      ensures outcome == Some(result) && !timerLive && graceLive
    {
      outcome := Some(result);
      timerLive := false;
      graceLive := true;
    }

    method OnDeadline()
      requires timerLive && !ended
      modifies this
      ensures View() == Step(old(View()), DeadlineFires)
    {
      settledAtDeadline := Some(|results|);
      Finish(TimedOut);
    }

    method OnGrace()
      requires graceLive && !ended
      modifies this
      ensures View() == Step(old(View()), GraceFires)
    {
      graceLive := false;
      exits := exits + [if outcome == Some(TimedOut) then 1 else 0];
    }

    /** Nothing is left for the event loop to wait for. */
    method OnLoopEmpty()
      requires graceLive && !timerLive && handles == {} && !ended
      modifies this
      ensures View() == Step(old(View()), LoopEmpties)
    {
      ended := true;
    }
  }
}
