/** The wrapper every job runs inside: dispatch, validation, the abort race, and the metrics that must balance. */
module JobProcessor {
  import opened Wrappers
  import opened Errors
  import opened Sequences
  import Race = AbortRace
  import Lifecycle = JobLifecycle

  type CallId = nat

  /** What the registry and the schemas make of a job. */
  datatype Job = Job(
    name: string,
    known: bool,
    envelopeOk: bool,
    payloadOk: bool,
    attempts: Option<nat>,
    attemptsMade: nat)

  /** One call of the processor. `started`: the envelope and payload validated, so the handler was invoked. */
  datatype Call = Call(job: Job, started: bool, race: Race.Race)

  datatype Metrics = Metrics(started: nat, observed: nat, completed: nat, failed: nat, retrying: nat)

  datatype State = State(timeoutMs: nat, calls: map<CallId, Call>, metrics: Metrics)

  datatype Op =
    | Process(c: CallId, job: Job, aborted: Option<Race.Reason>)
    | Happens(c: CallId, ev: Race.Event)

  function EnvelopeMessage(name: string): string { "Invalid job envelope for \"" + name + "\"" }

  function PayloadMessage(name: string): string { "Invalid payload for job \"" + name + "\"" }

  /** Why `invoke` rejects before calling back, if it does. */
  function Rejection(job: Job): Option<Thrown> {
    if !job.known then Some(UnknownJobError(job.name))
    else if !job.envelopeOk then Some(PayloadValidationError(EnvelopeMessage(job.name)))
    else if !job.payloadOk then Some(PayloadValidationError(PayloadMessage(job.name)))
    else None
  }

  /** The race an accepted or rejected job starts; an unknown job never reaches it. */
  function StartRace(timeoutMs: nat, job: Job, aborted: Option<Race.Reason>): Race.Race {
    var early := match Rejection(job) case Some(e) => Some(Err(e)) case None => None;
    Race.Begin(timeoutMs, if job.known then aborted else None, early)
  }

  function NewCall(timeoutMs: nat, job: Job, aborted: Option<Race.Reason>): Call {
    Call(job, Rejection(job).None?, StartRace(timeoutMs, job, aborted))
  }

  /** What the processor records when an attempt ends. */
  function Account(m: Metrics, call: Call): Metrics {
    match call.race.result
    case None => m
    case Some(Ok(_)) => m.(observed := m.observed + 1, completed := m.completed + 1)
    case Some(Err(f)) =>
      var observed := if call.started then m.observed + 1 else m.observed;
      var retries := Lifecycle.WillRetry(Race.ErrorOf(f), call.job.attemptsMade + 1, call.job.attempts);
      m.(observed := observed, failed := m.failed + 1, retrying := if retries then m.retrying + 1 else m.retrying)
  }

  function WithStart(m: Metrics, call: Call): Metrics {
    if call.started then m.(started := m.started + 1) else m
  }

  function Step(s: State, op: Op): State {
    match op
    case Process(c, job, aborted) =>
      if c in s.calls then s
      else
        var call := NewCall(s.timeoutMs, job, aborted);
        s.(calls := s.calls[c := call], metrics := Account(WithStart(s.metrics, call), call))
    case Happens(c, ev) =>
      if c !in s.calls then s
      else
        var before := s.calls[c];
        var after := before.(race := Race.Step(before.race, ev));
        s.(calls := s.calls[c := after],
           metrics := if before.race.result.None? then Account(s.metrics, after) else s.metrics)
  }

  function Run(s: State, ops: seq<Op>): State
    decreases |ops|
  {
    if ops == [] then s else Run(Step(s, ops[0]), ops[1..])
  }

  function Initial(timeoutMs: nat): State {
    State(timeoutMs, map[], Metrics(0, 0, 0, 0, 0))
  }

  // -------------------------------------------------- what the metrics count

  function Where(calls: map<CallId, Call>, p: Call -> bool): set<CallId> {
    set c | c in calls && p(calls[c])
  }

  predicate IsRunning(call: Call) { call.race.result.None? }

  predicate WasStarted(call: Call) { call.started }

  predicate WasObserved(call: Call) { call.started && call.race.result.Some? }

  predicate HasCompleted(call: Call) { call.race.result.Some? && call.race.result.value.Ok? }

  predicate HasFailed(call: Call) { call.race.result.Some? && call.race.result.value.Err? }

  /** The call failed and its job still has an attempt that the error's class allows. */
  predicate WillBeRetried(call: Call) {
    HasFailed(call)
    && Lifecycle.WillRetry(Race.ErrorOf(call.race.result.value.error), call.job.attemptsMade + 1, call.job.attempts)
  }

  /** The reference: the metrics as counts over the calls themselves. */
  function Census(calls: map<CallId, Call>): Metrics {
    Metrics(
      |Where(calls, WasStarted)|,
      |Where(calls, WasObserved)|,
      |Where(calls, HasCompleted)|,
      |Where(calls, HasFailed)|,
      |Where(calls, WillBeRetried)|)
  }

  /** A call's race is sound, and only a call that was started runs or succeeds. */
  ghost predicate CallInvariant(call: Call) {
    && Race.Invariant(call.race)
    && (IsRunning(call) || HasCompleted(call) ==> call.started)
  }

  ghost predicate Invariant(s: State) {
    && (forall c :: c in s.calls ==> CallInvariant(s.calls[c]) && s.calls[c].race.timeoutMs == s.timeoutMs)
    && s.metrics == Census(s.calls)
  }

  function One(b: bool): nat {
    if b then 1 else 0
  }

  lemma WhereWith(calls: map<CallId, Call>, c: CallId, call: Call, p: Call -> bool)
    ensures |Where(calls[c := call], p)|
         == |Where(calls, p)| + One(p(call)) - One(Was(calls, c, p))
  {
    var rest := Where(calls, p) - {c};
    assert Where(calls, p) == if Was(calls, c, p) then rest + {c} else rest;
    assert Where(calls[c := call], p) == if p(call) then rest + {c} else rest;
  }

  /** The call that `c` named before had the property. */
  predicate Was(calls: map<CallId, Call>, c: CallId, p: Call -> bool) {
    c in calls && p(calls[c])
  }

  lemma CensusWith(calls: map<CallId, Call>, c: CallId, call: Call)
    ensures var n, m := Census(calls[c := call]), Census(calls);
            && n.started == m.started + One(WasStarted(call)) - One(Was(calls, c, WasStarted))
            && n.observed == m.observed + One(WasObserved(call)) - One(Was(calls, c, WasObserved))
            && n.completed == m.completed + One(HasCompleted(call)) - One(Was(calls, c, HasCompleted))
            && n.failed == m.failed + One(HasFailed(call)) - One(Was(calls, c, HasFailed))
            && n.retrying == m.retrying + One(WillBeRetried(call)) - One(Was(calls, c, WillBeRetried))
  {
    WhereWith(calls, c, call, WasStarted);
    WhereWith(calls, c, call, WasObserved);
    WhereWith(calls, c, call, HasCompleted);
    WhereWith(calls, c, call, HasFailed);
    WhereWith(calls, c, call, WillBeRetried);
  }

  lemma NewCallIsValid(timeoutMs: nat, job: Job, aborted: Option<Race.Reason>)
    ensures CallInvariant(NewCall(timeoutMs, job, aborted))
    ensures NewCall(timeoutMs, job, aborted).race.timeoutMs == timeoutMs
  {
  }

  /**
   How a call that never runs ends: an unknown name decides before any signal, then a signal
   that has already fired, then the envelope, then the payload. Any other call is left running.
   */
  lemma NewCallEndsIff(timeoutMs: nat, job: Job, aborted: Option<Race.Reason>)
    ensures var call := NewCall(timeoutMs, job, aborted);
            && (IsRunning(call) <==> aborted.None? && job.known && job.envelopeOk && job.payloadOk)
            && (call.started <==> job.known && job.envelopeOk && job.payloadOk)
            && (!job.known ==> FailedWith(call, UnknownJobError(job.name)))
            && (job.known && aborted.Some? ==>
                  call.race.result == Some(Race.Decides(Race.WorkerAborts(aborted.value), timeoutMs)))
            && (job.known && aborted.None? && !job.envelopeOk ==>
                  FailedWith(call, PayloadValidationError("Invalid job envelope for \"" + job.name + "\"")))
            && (job.known && aborted.None? && job.envelopeOk && !job.payloadOk ==>
                  FailedWith(call, PayloadValidationError("Invalid payload for job \"" + job.name + "\"")))
  {
  }

  predicate FailedWith(call: Call, e: Thrown) {
    call.race.result == Some(Err(Race.WorkFailed(e)))
  }

  lemma NewCallKeepsInvariant(s: State, c: CallId, call: Call)
    requires Invariant(s) && c !in s.calls && CallInvariant(call) && call.race.timeoutMs == s.timeoutMs
    ensures Invariant(State(s.timeoutMs, s.calls[c := call], Account(WithStart(s.metrics, call), call)))
  {
    CensusWith(s.calls, c, call);
  }

  lemma EventKeepsInvariant(s: State, c: CallId, ev: Race.Event)
    requires Invariant(s) && c in s.calls
    ensures Invariant(Step(s, Happens(c, ev)))
  {
    var before := s.calls[c];
    var after := before.(race := Race.Step(before.race, ev));
    assert CallInvariant(before);
    Race.StepKeepsInvariant(before.race, ev);
    CensusWith(s.calls, c, after);
  }

  lemma {:induction false} RunKeepsInvariant(s: State, ops: seq<Op>)
    requires Invariant(s)
    ensures Invariant(Run(s, ops))
    decreases |ops|
  {
    if ops != [] {
      if ops[0].Process? && ops[0].c !in s.calls {
        NewCallIsValid(s.timeoutMs, ops[0].job, ops[0].aborted);
        NewCallKeepsInvariant(s, ops[0].c, NewCall(s.timeoutMs, ops[0].job, ops[0].aborted));
      } else if ops[0].Happens? && ops[0].c in s.calls {
        EventKeepsInvariant(s, ops[0].c, ops[0].ev);
      }
      RunKeepsInvariant(Step(s, ops[0]), ops[1..]);
    }
  }

  // ----------------------------------------------------- how each call ends

  /**
   An event ends the running call it is addressed to, and ends it as the race decides: a timer with
   the timeout, the worker's abort with its reason, and work with its value or its error. A call
   that has ended keeps its result, and every other call is untouched.
   */
  lemma EventDecides(s: State, c: CallId, ev: Race.Event)
    requires Invariant(s) && c in s.calls
    ensures var t := Step(s, Happens(c, ev));
            && t.calls.Keys == s.calls.Keys
            && (IsRunning(s.calls[c]) ==> t.calls[c].race.result == Some(Race.Decides(ev, s.timeoutMs)))
            && (!IsRunning(s.calls[c]) ==> t.calls[c].race.result == s.calls[c].race.result && t.metrics == s.metrics)
            && t.calls[c].job == s.calls[c].job && t.calls[c].started == s.calls[c].started
            && (forall d :: d in s.calls && d != c ==> t.calls[d] == s.calls[d])
  {
    assert CallInvariant(s.calls[c]);
    Race.StepKeepsInvariant(s.calls[c].race, ev);
  }

  /** The events of a run that are addressed to one call. */
  function EventsOf(c: CallId, ops: seq<Op>): seq<Race.Event> {
    if ops == [] then []
    else (if ops[0].Happens? && ops[0].c == c then [ops[0].ev] else []) + EventsOf(c, ops[1..])
  }

  /** Whatever else happens, a call goes through its own race and no other. */
  lemma {:induction false} CallIsItsRace(s: State, ops: seq<Op>, c: CallId)
    requires c in s.calls
    ensures var t := Run(s, ops);
            && c in t.calls
            && t.calls[c] == s.calls[c].(race := Race.Run(s.calls[c].race, EventsOf(c, ops)))
    decreases |ops|
  {
    if ops != [] {
      var t := Step(s, ops[0]);
      CallIsItsRace(t, ops[1..], c);
      if ops[0].Happens? && ops[0].c == c {
        var events := EventsOf(c, ops);
        assert events == [ops[0].ev] + EventsOf(c, ops[1..]);
        assert events[1..] == EventsOf(c, ops[1..]);
      } else {
        assert t.calls[c] == s.calls[c];
        assert EventsOf(c, ops) == EventsOf(c, ops[1..]);
      }
    }
  }

  /**
   In every interleaving, a call that its begin left running ends as the first event addressed to
   it decides, whatever happens to other calls, and until then it runs.
   */
  lemma FirstEventEndsTheCall(
    timeoutMs: nat, before: seq<Op>, c: CallId, job: Job, aborted: Option<Race.Reason>, ops: seq<Op>)
    ensures var s := Run(Initial(timeoutMs), before);
            var begun := Step(s, Process(c, job, aborted));
            c !in s.calls && aborted.None? && job.known && job.envelopeOk && job.payloadOk ==>
              var events, t := EventsOf(c, ops), Run(begun, ops);
              && c in t.calls && t.calls[c].job == job && t.calls[c].started
              && t.calls[c].race.result
                 == if events == [] then None else Some(Race.Decides(events[0], timeoutMs))
  {
    var s := Run(Initial(timeoutMs), before);
    var begun := Step(s, Process(c, job, aborted));
    TimeoutIsFixed(Initial(timeoutMs), before);
    if c !in s.calls && aborted.None? && job.known && job.envelopeOk && job.payloadOk {
      CallIsItsRace(begun, ops, c);
      assert begun.calls[c].race == Race.Begin(timeoutMs, None, None);
      Race.FirstEventDecides(timeoutMs, EventsOf(c, ops));
    }
  }

  lemma {:induction false} TimeoutIsFixed(s: State, ops: seq<Op>)
    ensures Run(s, ops).timeoutMs == s.timeoutMs
    decreases |ops|
  {
    if ops != [] {
      TimeoutIsFixed(Step(s, ops[0]), ops[1..]);
    }
  }

  /** The error an event makes an attempt fail with. */
  function ErrorBehind(ev: Race.Event): Option<Thrown> {
    match ev
    case TimerFires => Some(JobTimeoutError())
    case WorkerAborts(ErrorReason(e)) => Some(e)
    case WorkerAborts(TextReason(text)) => Some(JobCancelledError(text))
    case WorkerAborts(OtherReason) => Some(JobCancelledError("worker cancelled the job"))
    case WorkSettles(Err(e)) => Some(e)
    case WorkSettles(Ok(_)) => None
  }

  /** Not final for the kit, and classified at all, with an attempt left; a job states one unless it says otherwise. */
  predicate CountsAsRetry(e: Thrown, job: Job) {
    && !e.report.ClassifyThrows? && !e.unrecoverable
    && !(e.isError && (e.name == UnrecoverableName || e.name == NonRetryableName
                       || e.name == PayloadValidationName || e.name == UnknownJobName))
    && job.attempts.Some? && job.attemptsMade + 1 < job.attempts.value
  }

  /**
   What ending a running call does to the metrics: a success is completed; a failure is failed, and
   counted as retrying exactly when the error is not final and another attempt is left; either is
   observed once.
   */
  lemma EndingIsCounted(s: State, c: CallId, ev: Race.Event)
    requires Invariant(s) && c in s.calls && IsRunning(s.calls[c])
    ensures var t := Step(s, Happens(c, ev)); var m, n, error := s.metrics, t.metrics, ErrorBehind(ev);
            && n.started == m.started && n.observed == m.observed + 1
            && (error.None? ==> n == m.(observed := m.observed + 1, completed := m.completed + 1))
            && (error.Some? ==>
                  && n.completed == m.completed && n.failed == m.failed + 1
                  && n.retrying == m.retrying + One(CountsAsRetry(error.value, s.calls[c].job)))
  {
    EventDecides(s, c, ev);
    assert CallInvariant(s.calls[c]);
  }

  /**
   What beginning a call does to the metrics: it is started exactly if it validates; if it ends at
   once it is failed, observed if it was started, and counted as retrying only when the worker's
   abort was what ended it, by the same rule as above.
   */
  lemma BeginningIsCounted(s: State, c: CallId, job: Job, aborted: Option<Race.Reason>)
    requires c !in s.calls
    ensures var t := Step(s, Process(c, job, aborted)); var m, n := s.metrics, t.metrics;
            var valid := job.known && job.envelopeOk && job.payloadOk;
            && t.calls == s.calls[c := t.calls[c]]
            && n.started == m.started + One(valid) && n.completed == m.completed
            && n.failed == m.failed + One(!valid || aborted.Some?)
            && n.observed == m.observed + One(valid && aborted.Some?)
            && n.retrying == m.retrying + One(job.known && aborted.Some?
                 && CountsAsRetry(ErrorBehind(Race.WorkerAborts(aborted.value)).value, job))
  {
  }

  /** In every interleaving of job runs, each metric counts exactly the calls it is about. */
  lemma MetricsAreACensus(timeoutMs: nat, ops: seq<Op>)
    ensures var s := Run(Initial(timeoutMs), ops); s.metrics == Census(s.calls)
  {
    InitialIsValid(timeoutMs);
    RunKeepsInvariant(Initial(timeoutMs), ops);
  }

  lemma InitialIsValid(timeoutMs: nat)
    ensures Invariant(Initial(timeoutMs))
  {
    var none: map<CallId, Call> := map[];
    assert forall p: Call -> bool :: Where(none, p) == {};
  }

  function Running(s: State): set<CallId> {
    Where(s.calls, IsRunning)
  }

  predicate HasEnded(call: Call) { call.race.result.Some? }

  /** A property that splits in two counts as the two parts do. */
  lemma WhereSplits(calls: map<CallId, Call>, p: Call -> bool, q: Call -> bool, r: Call -> bool)
    requires forall c :: c in calls ==> (p(calls[c]) <==> q(calls[c]) || r(calls[c])) && !(q(calls[c]) && r(calls[c]))
    ensures |Where(calls, p)| == |Where(calls, q)| + |Where(calls, r)|
  {
    assert Where(calls, q) !! Where(calls, r);
    assert Where(calls, p) == Where(calls, q) + Where(calls, r);
  }

  lemma OutcomesPartition(calls: map<CallId, Call>)
    ensures |Where(calls, HasCompleted)| + |Where(calls, HasFailed)| + |Where(calls, IsRunning)| == |calls|
  {
    var any := (call: Call) => true;
    WhereSplits(calls, HasEnded, HasCompleted, HasFailed);
    WhereSplits(calls, any, HasEnded, IsRunning);
    assert Where(calls, any) == calls.Keys;
  }

  lemma StartsPartition(calls: map<CallId, Call>)
    requires forall c :: c in calls ==> CallInvariant(calls[c])
    ensures |Where(calls, WasStarted)| == |Where(calls, WasObserved)| + |Where(calls, IsRunning)|
    ensures |Where(calls, HasCompleted)| <= |Where(calls, WasObserved)|
  {
    WhereSplits(calls, WasStarted, WasObserved, IsRunning);
    CardinalityOfSubset(Where(calls, HasCompleted), Where(calls, WasObserved));
  }

  lemma CensusBalances(s: State)
    requires Invariant(s)
    ensures s.metrics.completed + s.metrics.failed + |Running(s)| == |s.calls|
    ensures s.metrics.started == s.metrics.observed + |Running(s)|
    ensures s.metrics.completed <= s.metrics.observed && s.metrics.retrying <= s.metrics.failed
  {
    OutcomesPartition(s.calls);
    StartsPartition(s.calls);
    CardinalityOfSubset(Where(s.calls, WillBeRetried), Where(s.calls, HasFailed));
  }

  /**
   In every interleaving, unknown, invalid and pre-aborted jobs included: every call begun is
   completed, failed or running; every start is observed once it is no longer running.
   */
  lemma MetricsBalance(timeoutMs: nat, ops: seq<Op>)
    ensures var s := Run(Initial(timeoutMs), ops); var m := s.metrics;
            && m.completed + m.failed + |Running(s)| == |s.calls|
            && m.started == m.observed + |Running(s)|
            && m.completed <= m.started && m.retrying <= m.failed
            && (Running(s) == {} ==> m.observed == m.started && m.completed + m.failed == |s.calls|)
  {
    InitialIsValid(timeoutMs);
    RunKeepsInvariant(Initial(timeoutMs), ops);
    CensusBalances(Run(Initial(timeoutMs), ops));
  }

  function Listening(s: State): set<CallId> {
    set c | c in s.calls && s.calls[c].race.listening
  }

  function TimerLive(s: State): set<CallId> {
    set c | c in s.calls && s.calls[c].race.timerLive
  }

  lemma RunningCallsHoldResources(s: State)
    requires forall c :: c in s.calls ==> CallInvariant(s.calls[c])
    ensures Listening(s) == TimerLive(s) == Running(s)
  {
  }

  /** The live listeners and timers are those of the running calls, in every reachable state. */
  lemma OnlyRunningCallsHoldResources(timeoutMs: nat, ops: seq<Op>)
    ensures var s := Run(Initial(timeoutMs), ops);
            Listening(s) == TimerLive(s) == Running(s)
  {
    InitialIsValid(timeoutMs);
    RunKeepsInvariant(Initial(timeoutMs), ops);
    RunningCallsHoldResources(Run(Initial(timeoutMs), ops));
  }

  class Processor {
    const timeoutMs: nat
    var calls: map<CallId, Call>
    var jobsStarted: nat
    var durationsObserved: nat
    var jobsCompleted: nat
    var jobsFailed: nat
    var jobsRetrying: nat

    constructor (timeoutMs: nat)
      ensures View() == Initial(timeoutMs)
    {
      this.timeoutMs := timeoutMs;
      calls := map[];
      jobsStarted, durationsObserved, jobsCompleted, jobsFailed, jobsRetrying := 0, 0, 0, 0, 0;
    }

    ghost function View(): State
      reads this
    {
      State(timeoutMs, calls, Metrics(jobsStarted, durationsObserved, jobsCompleted, jobsFailed, jobsRetrying))
    }

    /** The call up to its first suspension: lookup, timer, validation, and the start of the race. */
    method ProcessJob(c: CallId, job: Job, aborted: Option<Race.Reason>)
      requires c !in calls
      modifies this
      ensures View() == Step(old(View()), Process(c, job, aborted))
    {
      var rejection := Rejection(job);
      if !job.known {
        jobsFailed := jobsFailed + 1;
        calls := calls[c := Call(job, false, Race.Begin(timeoutMs, None, Some(Err(rejection.value))))];
        assert !Lifecycle.WillRetry(rejection.value, job.attemptsMade + 1, job.attempts);
        return;
      }
      var started := false;
      if rejection.None? {
        jobsStarted := jobsStarted + 1;
        started := true;
      }
      var call := Call(job, started, StartRace(timeoutMs, job, aborted));
      calls := calls[c := call];
      if call.race.result.Some? {
        Finish(call);
      }
    }

    method OnEvent(c: CallId, ev: Race.Event)
      requires c in calls
      modifies this
      ensures View() == Step(old(View()), Happens(c, ev))
    {
      var before := calls[c];
      var after := before.(race := Race.Step(before.race, ev));
      calls := calls[c := after];
      if before.race.result.None? && after.race.result.Some? {
        Finish(after);
      }
    }

    /** The code after the awaited race: the success path or the catch clause. */
    method Finish(call: Call)
      requires call.race.result.Some?
      modifies this
      ensures View() == old(View()).(metrics := Account(old(View()).metrics, call))
    {
      match call.race.result.value {
        case Ok(_) =>
          durationsObserved := durationsObserved + 1;
          jobsCompleted := jobsCompleted + 1;
        case Err(failure) =>
          if call.started {
            durationsObserved := durationsObserved + 1;
          }
          jobsFailed := jobsFailed + 1;
          if Lifecycle.WillRetry(Race.ErrorOf(failure), call.job.attemptsMade + 1, call.job.attempts) {
            jobsRetrying := jobsRetrying + 1;
          }
      }
    }
  }
}
