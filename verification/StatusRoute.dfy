/**
 The job status route: up to three reads of a job that may be moving while it is read.

 The job's life is a sequence of snapshots, `None` once it has been removed, and each read
 sees the snapshot of its own moment. `finishedOn` is written together with the terminal state.
 */
module StatusRoute {
  import opened Wrappers

  datatype JobState = Waiting | Delayed | Active | Completed | Failed

  datatype Snapshot = Snapshot(
    state: JobState,
    attemptsMade: nat,
    finishedOn: Option<nat>,
    returnValue: Option<string>,
    failedReason: Option<string>)

  type History = seq<Option<Snapshot>>

  predicate Terminal(state: JobState) {
    state == Completed || state == Failed
  }

  /** The snapshots the queue library keeps: an end is stamped, and carries its result or its reason. */
  predicate Valid(s: Snapshot) {
    && (Terminal(s.state) <==> s.finishedOn.Some?)
    && (s.state == Completed <==> s.returnValue.Some?)
    && (s.state == Failed ==> s.failedReason.Some?)
  }

  /** Removal is final, and until then a terminal job does not change. */
  predicate Life(h: History) {
    && (forall i :: 0 <= i < |h| && h[i].Some? ==> Valid(h[i].value))
    && (forall i, j :: 0 <= i <= j < |h| && h[i].None? ==> h[j].None?)
    && (forall i, j :: 0 <= i <= j < |h| && h[i].Some? && Terminal(h[i].value.state) && h[j].Some? ==> h[j] == h[i])
  }

  datatype Response = NotFound | Status(
    state: Option<JobState>,       // `None` when the state is read after the job was removed
    attemptsMade: nat,
    finishedAt: Option<nat>,
    failedReason: Option<string>,
    result: Option<string>)

  function StateAt(h: History, i: nat): Option<JobState>
    requires i < |h|
  {
    match h[i] case Some(s) => Some(s.state) case None => None
  }

  /** The handler, its reads taking place at the moments `first`, `second` and `third`. */
  method GetJob(h: History, first: nat, second: nat, third: nat) returns (response: Response)
    requires first <= second <= third < |h| && Life(h)
    ensures response.NotFound? <==> h[first].None?
    ensures response.Status? ==> response.state == StateAt(h, second)
    ensures response.Status? && response.state.Some? && Terminal(response.state.value) ==>
              (ReportsTheEnd(response, h[second].value) <==> !GoneBeforeReread(h, first, second, third))
    ensures response.Status? && !(response.state.Some? && Terminal(response.state.value)) ==>
              response.attemptsMade == h[first].value.attemptsMade && response.finishedAt == h[first].value.finishedOn
    ensures response.Status? ==>
              && (response.result.Some? ==> response.state == Some(Completed))
              && (response.failedReason.Some? ==> response.state == Some(Failed))
  {
    if h[first].None? {
      return NotFound;
    }
    var job := h[first].value;
    var state := StateAt(h, second);
    if (state == Some(Completed) || state == Some(Failed)) && job.finishedOn.None? {
      job := h[third].GetOr(job);
    }
    return Status(
        state,
        job.attemptsMade,
        job.finishedOn,
        if state == Some(Failed) then job.failedReason else None,
        if state == Some(Completed) then job.returnValue else None);
  }

  /** A finished response describes one and the same terminal transition, with its time and its result or reason. */
  predicate ReportsTheEnd(r: Response, end: Snapshot) {
    && r.Status?
    && r.finishedAt.Some? && r.finishedAt == end.finishedOn
    && r.attemptsMade == end.attemptsMade
    && (end.state == Completed ==> r.result.Some? && r.result == end.returnValue)
    && (end.state == Failed ==> r.failedReason.Some? && r.failedReason == end.failedReason)
  }

  /** The job ended between the first two reads and was removed before the third. */
  predicate GoneBeforeReread(h: History, first: nat, second: nat, third: nat)
    requires first <= second <= third < |h|
  {
    h[first].Some? && !Terminal(h[first].value.state) && h[third].None?
  }

  /**
   A job that completes after the first read and is removed before the third. The second read
   finds it completed, so that by its contract the handler reports an end without its finish.
   */
  lemma CompletedJobCanBeGone(attemptsMade: nat, finishedOn: nat, result: string)
    ensures exists h: History ::
              |h| == 3 && Life(h) && GoneBeforeReread(h, 0, 1, 2) && StateAt(h, 1) == Some(Completed)
  {
    var before := Snapshot(Active, attemptsMade, None, None, None);
    var end := Snapshot(Completed, attemptsMade, Some(finishedOn), Some(result), None);
    var h: History := [Some(before), Some(end), None];
    assert Life(h) && GoneBeforeReread(h, 0, 1, 2) && StateAt(h, 1) == Some(Completed);
  }
}
