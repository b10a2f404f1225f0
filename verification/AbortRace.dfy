/**
 One attempt racing its handler against its two abort sources: the timeout and the worker.

 The race follows first-settled semantics (section 27.2.4.5 of ECMA-262), and the combined
 signal fires its listener once, when the first of its sources aborts (section 3.2 of the
 WHATWG DOM standard). Each event below is one event-loop task.
 */
module AbortRace {
  import opened Wrappers
  import opened Errors

  /** What a signal was aborted with. */
  datatype Reason = ErrorReason(e: Thrown) | TextReason(text: string) | OtherReason

  datatype Failure =
    | TimedOut(timeoutMs: nat)
    | Cancelled(e: Thrown)
    | WorkFailed(e: Thrown)

  type Value = string

  /**
   `preAborted`: the worker's signal had fired before the race began. `watched`: the race has
   attached a rejection handler to the work. `unhandled`: a rejection of the work was reported
   as unhandled.
   */
  datatype Race = Race(
    timeoutMs: nat,
    preAborted: bool,
    workerReason: Option<Reason>,
    timedOut: bool,
    work: Option<Result<Value, Thrown>>,
    result: Option<Result<Value, Failure>>,
    listening: bool,
    timerLive: bool,
    watched: bool,
    unhandled: bool)

  datatype Event =
    | WorkSettles(work: Result<Value, Thrown>)
    | WorkerAborts(reason: Reason)
    | TimerFires

  function ErrorOf(f: Failure): Thrown {
    match f
    case TimedOut(_) => JobTimeoutError()
    case Cancelled(e) => e
    case WorkFailed(e) => e
  }

  predicate SignalAborted(r: Race) {
    r.timedOut || r.workerReason.Some?
  }

  function AbortError(timedOut: bool, reason: Reason, timeoutMs: nat): Failure {
    if timedOut then TimedOut(timeoutMs)
    else match reason
      case ErrorReason(e) => Cancelled(e)
      case TextReason(s) => Cancelled(JobCancelledError(s))
      case OtherReason => Cancelled(JobCancelledError("worker cancelled the job"))
  }

  function FromWork(work: Result<Value, Thrown>): Result<Value, Failure> {
    match work
    case Ok(v) => Ok(v)
    case Err(e) => Err(WorkFailed(e))
  }

  /** The race's promise settles: its listener and the attempt's timer are released. */
  function SettleWith(r: Race, result: Result<Value, Failure>): Race {
    r.(result := Some(result), listening := false, timerLive := false)
  }

  /** The listener on the combined signal, which runs only if it is still attached. */
  function OnAbort(r: Race): Race {
    if r.listening
    then SettleWith(r, Err(AbortError(r.timedOut, r.workerReason.GetOr(OtherReason), r.timeoutMs)))
    else r
  }

  /**
   The start of the race. `work` is already settled when the handler could not be invoked. A
   signal that has already fired rejects at once, before anything watches the work.
   */
  function Begin(timeoutMs: nat, aborted: Option<Reason>, work: Option<Result<Value, Thrown>>): Race {
    var r := Race(timeoutMs, aborted.Some?, aborted, false, work, None, false, true, false, false);
    match aborted
    case Some(reason) =>
      SettleWith(r, Err(AbortError(false, reason, timeoutMs))).(unhandled := work.Some? && work.value.Err?)
    case None =>
      var racing := r.(listening := true, watched := true);
      if work.Some? then SettleWith(racing, FromWork(work.value)) else racing
  }

  predicate Enabled(r: Race, ev: Event) {
    match ev
    case WorkSettles(_) => r.work.None?
    case WorkerAborts(_) => r.workerReason.None?
    case TimerFires => r.timerLive
  }

  function Step(r: Race, ev: Event): Race {
    if !Enabled(r, ev) then r
    else match ev
      case WorkSettles(work) =>
        var settled := r.(work := Some(work), unhandled := r.unhandled || (work.Err? && !r.watched));
        if r.result.None? then SettleWith(settled, FromWork(work)) else settled
      case WorkerAborts(reason) =>
        var aborted := r.(workerReason := Some(reason));
        if SignalAborted(r) then aborted else OnAbort(aborted)
      case TimerFires =>
        var aborted := r.(timedOut := true, timerLive := false);
        if SignalAborted(r) then aborted else OnAbort(aborted)
  }

  function Run(r: Race, events: seq<Event>): Race
    decreases |events|
  {
    if events == [] then r else Run(Step(r, events[0]), events[1..])
  }

  /** The reference: what an event decides when it comes first. */
  function Decides(ev: Event, timeoutMs: nat): Result<Value, Failure> {
    match ev
    case WorkSettles(Ok(v)) => Ok(v)
    case WorkSettles(Err(e)) => Err(WorkFailed(e))
    case WorkerAborts(ErrorReason(e)) => Err(Cancelled(e))
    case WorkerAborts(TextReason(s)) => Err(Cancelled(JobCancelledError(s)))
    case WorkerAborts(OtherReason) => Err(Cancelled(JobCancelledError("worker cancelled the job")))
    case TimerFires => Err(TimedOut(timeoutMs))
  }

  /** What every race that has begun keeps. */
  ghost predicate Invariant(r: Race) {
    && (r.listening <==> r.result.None?)
    && (r.timerLive <==> r.result.None?)
    && (r.result.None? ==> r.work.None? && !SignalAborted(r))
    && (r.watched <==> !r.preAborted)
    && (r.unhandled <==> r.preAborted && r.work.Some? && r.work.value.Err?)
    && (r.preAborted ==> r.workerReason.Some?)
  }

  lemma BeginKeepsInvariant(timeoutMs: nat, aborted: Option<Reason>, work: Option<Result<Value, Thrown>>)
    ensures Invariant(Begin(timeoutMs, aborted, work))
  {
  }

  lemma StepKeepsInvariant(r: Race, ev: Event)
    requires Invariant(r)
    ensures Invariant(Step(r, ev))
    ensures Step(r, ev).preAborted == r.preAborted && Step(r, ev).timeoutMs == r.timeoutMs
    ensures r.result.None? ==> Step(r, ev).result == Some(Decides(ev, r.timeoutMs))
    ensures r.result.Some? ==> Step(r, ev).result == r.result
  {
  }

  lemma {:induction false} RunKeepsInvariant(r: Race, events: seq<Event>)
    requires Invariant(r)
    ensures Invariant(Run(r, events)) && Run(r, events).preAborted == r.preAborted
    ensures r.result.Some? ==> Run(r, events).result == r.result
    decreases |events|
  {
    if events != [] {
      StepKeepsInvariant(r, events[0]);
      RunKeepsInvariant(Step(r, events[0]), events[1..]);
    }
  }

  /** In every order of events, an attempt whose signal was live ends as the first event decides, once and for all. */
  lemma FirstEventDecides(timeoutMs: nat, events: seq<Event>)
    ensures var r := Run(Begin(timeoutMs, None, None), events);
            r.result == if events == [] then None else Some(Decides(events[0], timeoutMs))
  {
    var r := Begin(timeoutMs, None, None);
    BeginKeepsInvariant(timeoutMs, None, None);
    if events != [] {
      StepKeepsInvariant(r, events[0]);
      RunKeepsInvariant(Step(r, events[0]), events[1..]);
    }
  }

  /** A signal that had already fired decides alone: not even work that has settled, or settles later, is heard. */
  lemma PreAbortedRejects(timeoutMs: nat, reason: Reason, work: Option<Result<Value, Thrown>>, events: seq<Event>)
    ensures Run(Begin(timeoutMs, Some(reason), work), events).result == Some(Decides(WorkerAborts(reason), timeoutMs))
  {
    BeginKeepsInvariant(timeoutMs, Some(reason), work);
    RunKeepsInvariant(Begin(timeoutMs, Some(reason), work), events);
  }

  /** Work that is already settled when a live race begins decides it. */
  lemma SettledWorkDecides(timeoutMs: nat, work: Result<Value, Thrown>, events: seq<Event>)
    ensures Run(Begin(timeoutMs, None, Some(work)), events).result == Some(Decides(WorkSettles(work), timeoutMs))
  {
    BeginKeepsInvariant(timeoutMs, None, Some(work));
    RunKeepsInvariant(Begin(timeoutMs, None, Some(work)), events);
  }

  /** The timeout error is raised exactly when the timer fires before the work settles and the worker aborts. */
  lemma TimeoutIffTimerFirst(timeoutMs: nat, events: seq<Event>)
    ensures var r := Run(Begin(timeoutMs, None, None), events);
            && (r.result == Some(Err(TimedOut(timeoutMs))) <==> events != [] && events[0].TimerFires?)
            && (r.result.Some? && r.result.value.Ok? <==>
                events != [] && events[0].WorkSettles? && events[0].work.Ok?)
  {
    FirstEventDecides(timeoutMs, events);
  }

  /** Whatever happened, a listener or timer is live exactly as long as the attempt is unsettled. */
  lemma NothingLeaks(timeoutMs: nat, aborted: Option<Reason>, work: Option<Result<Value, Thrown>>, events: seq<Event>)
    ensures var r := Run(Begin(timeoutMs, aborted, work), events);
            (r.listening <==> r.result.None?) && (r.timerLive <==> r.result.None?)
  {
    BeginKeepsInvariant(timeoutMs, aborted, work);
    RunKeepsInvariant(Begin(timeoutMs, aborted, work), events);
  }

  /** How the work settled, if it has, in a run of events. */
  function WorkIn(events: seq<Event>): Option<Result<Value, Thrown>> {
    if events == [] then None
    else if events[0].WorkSettles? then Some(events[0].work)
    else WorkIn(events[1..])
  }

  lemma StepRemembersWork(r: Race, ev: Event)
    ensures Step(r, ev).work == if r.work.None? && ev.WorkSettles? then Some(ev.work) else r.work
  {
  }

  /** The race remembers how the work settled first, also after it has been abandoned. */
  lemma {:induction false} WorkIsRemembered(r: Race, events: seq<Event>)
    ensures Run(r, events).work == if r.work.Some? then r.work else WorkIn(events)
    decreases |events|
  {
    if events != [] {
      StepRemembersWork(r, events[0]);
      WorkIsRemembered(Step(r, events[0]), events[1..]);
    }
  }

  /**
   Abandoned work is meant never to be reported as unhandled. It is reported exactly when the
   attempt began with its signal already aborted and the work rejects.
   */
  lemma UnhandledIffPreAborted(
    timeoutMs: nat, aborted: Option<Reason>, work: Option<Result<Value, Thrown>>, events: seq<Event>)
    ensures var r := Run(Begin(timeoutMs, aborted, work), events);
            var settled := if work.Some? then work else WorkIn(events);
            r.unhandled <==> aborted.Some? && settled.Some? && settled.value.Err?
  {
    WorkIsRemembered(Begin(timeoutMs, aborted, work), events);
    BeginKeepsInvariant(timeoutMs, aborted, work);
    RunKeepsInvariant(Begin(timeoutMs, aborted, work), events);
  }
}
