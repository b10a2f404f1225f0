/**
 One job from its first run to its end, with retries, lost locks and stall recovery.

 The queue library is the environment and obeys what the repository states of it: it retries
 unless the error is unrecoverable or the attempts are used up; `finishedOn` is set only by
 the final transition, before `failed` is emitted; an attempt that lost its lock cannot move
 the job; and a stalled job is recovered once, then failed outright, in which case the event
 may come without the job.
 */
module JobLifecycle {
  import opened Wrappers
  import opened Errors

  const MAX_STALLED_COUNT: nat := 1

  datatype Status =
    | Waiting
    | Active      // a run holds the lock
    | Stalled     // the run lost its lock; the stalled checker has yet to act
    | Delayed
    | Completed
    | Failed

  /**
   `zombies` are the attempt numbers of runs that lost their lock and still execute.
   `stalledOut`, `unlabelled`, `uncounted`, `overcounted` and `zombieRetries` are history: the job
   was failed by the stalled checker; its last event came without the job; retries granted that
   the kit did not announce; announcements that were not granted; and announcements by runs that
   no longer held the lock.
   */
  datatype Job = Job(
    attempts: Option<nat>,
    status: Status,
    attemptsMade: nat,
    finishedOn: bool,
    stalls: nat,
    runs: nat,
    zombies: multiset<nat>,
    jobsRetrying: nat,
    deadLettered: seq<nat>,
    stalledOut: bool,
    unlabelled: bool,
    uncounted: nat,
    overcounted: nat,
    zombieRetries: nat)

  datatype Op =
    | Fetch
    | Promote
    | Return
    | Throw(e: Thrown)
    | LoseLock
    | Recover(withJob: bool)
    | ZombieReturn(attempt: nat)
    | ZombieThrow(attempt: nat, e: Thrown)

  function New(attempts: Option<nat>): Job {
    Job(attempts, Waiting, 0, false, 0, 0, multiset{}, 0, [], false, false, 0, 0, 0)
  }

  function Allowed(attempts: Option<nat>): nat {
    attempts.GetOr(1)
  }

  /** What the processor announces when an attempt throws. */
  predicate WillRetry(e: Thrown, attempt: nat, attempts: Option<nat>) {
    !e.report.ClassifyThrows? && !IsNonRetryable(e) && attempt < Allowed(attempts)
  }

  /** What the library does with the error that reaches it. */
  predicate LibraryRetries(e: Thrown, attemptsMade: nat, attempts: Option<nat>) {
    !LibraryGivesUp(Escapes(e)) && attemptsMade + 1 < Allowed(attempts)
  }

  predicate Enabled(j: Job, op: Op) {
    match op
    case Fetch => j.status == Waiting
    case Promote => j.status == Delayed
    case Return => j.status == Active
    case Throw(_) => j.status == Active
    case LoseLock => j.status == Active
    case Recover(_) => j.status == Stalled
    case ZombieReturn(attempt) => attempt in j.zombies
    case ZombieThrow(attempt, _) => attempt in j.zombies
  }

  /** The processor's catch clause, for a run of the given attempt number. */
  function Announce(j: Job, e: Thrown, attempt: nat): Job {
    if WillRetry(e, attempt, j.attempts) then j.(jobsRetrying := j.jobsRetrying + 1) else j
  }

  /**
   The worker's `failed` handler. It sees whether the event came with a job and, if so, whether
   that job's `finishedOn` is set; only then is a dead-letter write triggered.
   */
  function OnFailed(j: Job, finished: Option<bool>): Job {
    if finished == Some(true) then j.(deadLettered := j.deadLettered + [j.attemptsMade]) else j
  }

  function Step(j: Job, op: Op): Job {
    if !Enabled(j, op) then j
    else match op
      case Fetch => j.(status := Active, runs := j.runs + 1)
      case Promote => j.(status := Waiting)
      case Return => j.(status := Completed, finishedOn := true)
      case Throw(e) =>
        var announced := Announce(j, e, j.attemptsMade + 1);
        var counted := announced.(attemptsMade := j.attemptsMade + 1);
        if LibraryRetries(e, j.attemptsMade, j.attempts) then
          var missed := if WillRetry(e, j.attemptsMade + 1, j.attempts) then 0 else 1;
          OnFailed(counted.(status := Delayed, uncounted := j.uncounted + missed), Some(j.finishedOn))
        else
          var extra := if WillRetry(e, j.attemptsMade + 1, j.attempts) then 1 else 0;
          OnFailed(counted.(status := Failed, finishedOn := true, overcounted := j.overcounted + extra), Some(true))
      case LoseLock => j.(status := Stalled, zombies := j.zombies + multiset{j.attemptsMade + 1})
      case Recover(withJob) =>
        if j.stalls < MAX_STALLED_COUNT then j.(status := Waiting, stalls := j.stalls + 1)
        else OnFailed(j.(status := Failed, finishedOn := true, stalledOut := true, unlabelled := !withJob),
                      if withJob then Some(true) else None)
      case ZombieReturn(attempt) => j.(zombies := j.zombies - multiset{attempt})
      case ZombieThrow(attempt, e) =>
        // Its move to failed does not land, so the job this run holds keeps `finishedOn` unset.
        var announced := Announce(j, e, attempt);
        OnFailed(announced.(zombies := j.zombies - multiset{attempt},
                            zombieRetries := j.zombieRetries + (announced.jobsRetrying - j.jobsRetrying)),
                 Some(false))
  }

  function Run(j: Job, ops: seq<Op>): Job
    decreases |ops|
  {
    if ops == [] then j else Run(Step(j, ops[0]), ops[1..])
  }

  predicate Terminal(j: Job) {
    j.status == Completed || j.status == Failed
  }

  /** Runs whose outcome is not counted in `attemptsMade`, beyond those recovered from a stall. */
  function OpenRun(j: Job): nat {
    if j.status == Active || j.status == Stalled || j.status == Completed || j.stalledOut then 1 else 0
  }

  /** Retries the library granted to runs that held the lock. */
  function Granted(j: Job): int {
    j.attemptsMade - (if j.status == Failed && !j.stalledOut then 1 else 0)
  }

  function LostLocks(j: Job): nat {
    j.stalls + (if j.status == Stalled || j.stalledOut then 1 else 0)
  }

  function AtLeastOne(n: nat): nat {
    if n == 0 then 1 else n
  }

  ghost predicate Invariant(j: Job) {
    && j.runs == j.attemptsMade + j.stalls + OpenRun(j)
    && j.stalls <= MAX_STALLED_COUNT
    && j.attemptsMade <= AtLeastOne(Allowed(j.attempts))
    && (j.attemptsMade == AtLeastOne(Allowed(j.attempts)) ==> j.status == Failed && !j.stalledOut)
    && (j.finishedOn <==> Terminal(j))
    && (j.stalledOut ==> j.status == Failed && j.stalls == MAX_STALLED_COUNT)
    && (j.status == Failed ==> j.stalledOut || j.attemptsMade > 0)
    && (j.unlabelled ==> j.stalledOut)
    && j.deadLettered == (if j.status == Failed && !j.unlabelled then [j.attemptsMade] else [])
    && j.jobsRetrying + j.uncounted == Granted(j) + j.overcounted + j.zombieRetries
    && j.overcounted <= (if j.status == Failed then 1 else 0)
    && ZombieInvariant(j)
  }

  /** Each lost lock leaves one run behind, which may once announce a retry that is not granted to it. */
  ghost predicate ZombieInvariant(j: Job) {
    && (forall attempt :: attempt in j.zombies ==> 1 <= attempt <= j.attemptsMade + 1)
    && |j.zombies| + j.zombieRetries <= LostLocks(j)
  }

  /**
   With an attempt left, the job is retried though none was announced: a borrowed final name, or
   an error whose reporting throws something the library retries.
   */
  predicate Unannounced(e: Thrown) {
    match e.report
    case Logged => OnlyNamedFinal(e)
    case ClassifyThrows(instead) => !LibraryGivesUp(instead)
    case LogThrows(instead) => IsNonRetryable(e) && !LibraryGivesUp(instead)
  }

  /** A retry was announced, and then serializing the error threw something final. */
  predicate FalselyAnnounced(e: Thrown) {
    e.report.LogThrows? && !IsNonRetryable(e) && LibraryGivesUp(e.report.instead)
  }

  /** Announcement and grant differ exactly with an attempt left, for an error of either kind. */
  lemma AnnouncementAgreesIff(e: Thrown, attemptsMade: nat, attempts: Option<nat>)
    ensures var left := attemptsMade + 1 < Allowed(attempts);
            var announced := WillRetry(e, attemptsMade + 1, attempts);
            var granted := LibraryRetries(e, attemptsMade, attempts);
            && (announced == granted <==> !(left && (Unannounced(e) || FalselyAnnounced(e))))
            && (granted && !announced <==> left && Unannounced(e))
            && (announced && !granted <==> left && FalselyAnnounced(e))
  {
  }

  /** A kit error that every worker can report is announced as it is treated. */
  lemma ReportedErrorsAgree(e: Thrown, attemptsMade: nat, attempts: Option<nat>)
    requires e.report == Logged && (KitFinalName(e.name) ==> e.unrecoverable)
    ensures WillRetry(e, attemptsMade + 1, attempts) == LibraryRetries(e, attemptsMade, attempts)
  {
    AnnouncementAgreesIff(e, attemptsMade, attempts);
  }

  predicate FinalKitError(e: Thrown, text: string) {
    e == PayloadValidationError(text) || e == UnknownJobError(text)
  }

  predicate PassingKitError(e: Thrown, text: string) {
    e == JobTimeoutError() || e == JobCancelledError(text)
  }

  /** The kit's own errors: two are final and two are not, for the kit and for the library alike. */
  lemma KitErrorsAreTreatedAsMeant(e: Thrown, text: string, attemptsMade: nat, attempts: Option<nat>)
    requires FinalKitError(e, text) || PassingKitError(e, text)
    ensures WillRetry(e, attemptsMade + 1, attempts) == LibraryRetries(e, attemptsMade, attempts)
    ensures LibraryRetries(e, attemptsMade, attempts)
       <==> PassingKitError(e, text) && attemptsMade + 1 < Allowed(attempts)
  {
    assert e.name == PayloadValidationName || e.name == UnknownJobName || e.name == JobTimeoutName
           || e.name == JobCancelledName;
  }

  /** An error that is reported and that nothing marks as final, such as a plain one. */
  predicate Plain(e: Thrown) {
    && e.report == Logged && !e.unrecoverable
    && (e.isError ==> e.name != UnrecoverableName && e.name != NonRetryableName
                      && e.name != PayloadValidationName && e.name != UnknownJobName)
  }

  /**
   A plain error is retried, and announced as retried, exactly while the attempts the job states
   leave another one, and never if it states none. A final one never is.
   */
  lemma PlainErrorIsRetriedIff(e: Thrown, attemptsMade: nat, attempts: Option<nat>)
    ensures Plain(e) ==>
              && (LibraryRetries(e, attemptsMade, attempts) <==> attempts.Some? && attemptsMade + 1 < attempts.value)
              && (WillRetry(e, attemptsMade + 1, attempts) <==> attempts.Some? && attemptsMade + 1 < attempts.value)
    ensures e.report == Logged && (e.unrecoverable || (e.isError && e.name == UnrecoverableName)) ==>
              !LibraryRetries(e, attemptsMade, attempts) && !WillRetry(e, attemptsMade + 1, attempts)
  {
  }

  lemma ThrowKeepsInvariant(j: Job, e: Thrown)
    requires Invariant(j)
    ensures Invariant(Step(j, Throw(e)))
  {
    AnnouncementAgreesIff(e, j.attemptsMade, j.attempts);
  }

  lemma ZombieLeaves(zombies: multiset<nat>, attempt: nat)
    requires attempt in zombies
    ensures |zombies - multiset{attempt}| == |zombies| - 1
  {
    assert zombies == zombies - multiset{attempt} + multiset{attempt};
  }

  /** Runs without the lock change only the counters and their own number. */
  function WithoutZombie(j: Job, attempt: nat, announced: nat): Job {
    j.(zombies := j.zombies - multiset{attempt},
       jobsRetrying := j.jobsRetrying + announced,
       zombieRetries := j.zombieRetries + announced)
  }

  lemma WithoutZombieKeepsInvariant(j: Job, attempt: nat, announced: nat)
    requires Invariant(j) && attempt in j.zombies && announced <= 1
    ensures Invariant(WithoutZombie(j, attempt, announced))
  {
    ZombieLeaves(j.zombies, attempt);
  }

  function ZombieAnnounces(j: Job, op: Op): nat {
    if op.ZombieThrow? && WillRetry(op.e, op.attempt, j.attempts) then 1 else 0
  }

  lemma ZombieStep(j: Job, op: Op)
    requires (op.ZombieReturn? || op.ZombieThrow?) && op.attempt in j.zombies
    ensures Step(j, op) == WithoutZombie(j, op.attempt, ZombieAnnounces(j, op))
  {
  }

  lemma ZombiesKeepInvariant(j: Job, op: Op)
    requires Invariant(j) && (op.ZombieReturn? || op.ZombieThrow?)
    ensures Invariant(Step(j, op))
  {
    if op.attempt in j.zombies {
      ZombieStep(j, op);
      WithoutZombieKeepsInvariant(j, op.attempt, ZombieAnnounces(j, op));
    } else {
      assert Step(j, op) == j;
    }
  }

  lemma StepKeepsInvariant(j: Job, op: Op)
    requires Invariant(j)
    ensures Invariant(Step(j, op))
  {
    match op
    case Throw(e) => ThrowKeepsInvariant(j, e);
    case ZombieReturn(_) => ZombiesKeepInvariant(j, op);
    case ZombieThrow(_, _) => ZombiesKeepInvariant(j, op);
    case _ =>
  }

  lemma AttemptsAreFixed(j: Job, op: Op)
    ensures Step(j, op).attempts == j.attempts
  {
  }

  lemma {:induction false} RunKeepsInvariant(j: Job, ops: seq<Op>)
    requires Invariant(j)
    ensures Invariant(Run(j, ops)) && Run(j, ops).attempts == j.attempts
    decreases |ops|
  {
    if ops != [] {
      StepKeepsInvariant(j, ops[0]);
      AttemptsAreFixed(j, ops[0]);
      RunKeepsInvariant(Step(j, ops[0]), ops[1..]);
    }
  }

  lemma Reached(attempts: Option<nat>, ops: seq<Op>) returns (j: Job)
    ensures j == Run(New(attempts), ops) && Invariant(j) && j.attempts == attempts
  {
    var start := New(attempts);
    assert Invariant(start);
    RunKeepsInvariant(start, ops);
    j := Run(start, ops);
  }

  // ------------------------------------------------------------ main results

  /**
   However it is retried, loses locks or stalls, a job that states n attempts starts at most n + 1
   runs, and at most n without a stall recovery. One that states none, or zero, has one attempt.
   */
  lemma RunsAreBounded(attempts: Option<nat>, ops: seq<Op>)
    ensures var j := Run(New(attempts), ops);
            var n := if attempts.Some? && attempts.value > 1 then attempts.value else 1;
            && j.runs <= n + 1
            && (j.stalls == 0 ==> j.runs <= n)
            && j.attemptsMade <= n
  {
    var j := Reached(attempts, ops);
  }

  // ---------------------------------------------------------- how jobs go on

  lemma {:induction false} RunBoth(j: Job, first: seq<Op>, second: seq<Op>)
    ensures Run(j, first + second) == Run(Run(j, first), second)
    decreases |first|
  {
    if first == [] {
      assert first + second == second;
    } else {
      assert (first + second)[1..] == first[1..] + second;
      RunBoth(Step(j, first[0]), first[1..], second);
    }
  }

  /** A run that throws, and the end of the delay that follows if there is one. */
  function Try(e: Thrown): seq<Op> {
    [Fetch, Throw(e), Promote]
  }

  function Tries(e: Thrown, k: nat): seq<Op> {
    if k == 0 then [] else Tries(e, k - 1) + Try(e)
  }

  lemma TryIsRun(j: Job, e: Thrown)
    ensures Run(j, Try(e)) == Step(Step(Step(j, Fetch), Throw(e)), Promote)
  {
    var fetched := Step(j, Fetch);
    var thrown := Step(fetched, Throw(e));
    assert Try(e)[1..] == [Throw(e), Promote] && [Throw(e), Promote][1..] == [Promote];
    assert Run(fetched, [Throw(e), Promote]) == Run(thrown, [Promote]);
    assert Run(thrown, [Promote]) == Run(Step(thrown, Promote), []);
  }

  /** One more failed attempt of a waiting job: it waits again, or has failed for good. */
  lemma OneTry(j: Job, e: Thrown)
    requires Plain(e) && j.status == Waiting && !j.finishedOn
    ensures var k := Run(j, Try(e));
            && k.attempts == j.attempts && k.runs == j.runs + 1 && k.attemptsMade == j.attemptsMade + 1
            && (j.attempts.Some? && j.attemptsMade + 1 < j.attempts.value ==>
                  k.status == Waiting && !k.finishedOn
                  && k.jobsRetrying == j.jobsRetrying + 1 && k.deadLettered == j.deadLettered)
            && (!(j.attempts.Some? && j.attemptsMade + 1 < j.attempts.value) ==>
                  k.status == Failed && k.finishedOn && k.jobsRetrying == j.jobsRetrying
                  && k.deadLettered == j.deadLettered + [k.attemptsMade])
  {
    TryIsRun(j, e);
    PlainErrorIsRetriedIff(e, j.attemptsMade, j.attempts);
  }

  lemma {:induction false} TriesBeforeTheLast(n: nat, e: Thrown, k: nat)
    requires Plain(e) && k < n
    ensures var j := Run(New(Some(n)), Tries(e, k));
            && j.status == Waiting && !j.finishedOn && j.attempts == Some(n)
            && j.runs == j.attemptsMade == j.jobsRetrying == k && j.deadLettered == []
  {
    if k > 0 {
      TriesBeforeTheLast(n, e, k - 1);
      RunBoth(New(Some(n)), Tries(e, k - 1), Try(e));
      OneTry(Run(New(Some(n)), Tries(e, k - 1)), e);
    }
  }

  /**
   A job whose every attempt throws a plain error uses all its attempts and no more: n runs, n - 1
   of them announced as retried, and then one record. One that states no attempts fails at once.
   */
  lemma PlainErrorsUseAllAttempts(attempts: Option<nat>, e: Thrown)
    requires Plain(e)
    ensures var n := if attempts.Some? && attempts.value > 1 then attempts.value else 1;
            var j := Run(New(attempts), Tries(e, n));
            && j.status == Failed && j.finishedOn
            && j.runs == j.attemptsMade == n && j.jobsRetrying == n - 1 && j.deadLettered == [n]
  {
    var n := if attempts.Some? && attempts.value > 1 then attempts.value else 1;
    if n > 1 {
      TriesBeforeTheLast(n, e, n - 1);
    }
    var before := Run(New(attempts), Tries(e, n - 1));
    RunBoth(New(attempts), Tries(e, n - 1), Try(e));
    OneTry(before, e);
  }

  /** A job that throws plain errors and then succeeds with an attempt left is completed, and never recorded. */
  lemma SuccessAfterTries(n: nat, e: Thrown, k: nat)
    requires Plain(e) && k < n
    ensures var j := Run(New(Some(n)), Tries(e, k) + [Fetch, Return]);
            && j.status == Completed && j.finishedOn
            && j.runs == k + 1 && j.attemptsMade == j.jobsRetrying == k && j.deadLettered == []
  {
    TriesBeforeTheLast(n, e, k);
    var j := Run(New(Some(n)), Tries(e, k));
    RunBoth(New(Some(n)), Tries(e, k), [Fetch, Return]);
    assert Run(j, [Fetch, Return]) == Run(Step(j, Fetch), [Return]);
    assert Run(Step(j, Fetch), [Return]) == Run(Step(Step(j, Fetch), Return), []);
  }

  /** A final error ends the job with its first attempt. */
  lemma FinalErrorFailsAtOnce(attempts: Option<nat>, e: Thrown)
    requires e.report == Logged && e.unrecoverable
    ensures var j := Run(New(attempts), Try(e));
            j.status == Failed && j.runs == j.attemptsMade == 1 && j.jobsRetrying == 0 && j.deadLettered == [1]
  {
    TryIsRun(New(attempts), e);
    PlainErrorIsRetriedIff(e, 0, attempts);
  }

  /**
   A run that lost its lock moves nothing but the counters: the job goes on without it, and its
   throw announces a retry by the same rule. The stalled checker recovers a job once, and then
   fails it, recording the failure exactly if the event came with the job.
   */
  lemma LostLockLeavesTheJob(j: Job)
    requires j.status == Active
    ensures var stalled := Step(j, LoseLock);
            && stalled.status == Stalled && stalled.runs == j.runs && stalled.attemptsMade == j.attemptsMade
            && stalled.deadLettered == j.deadLettered && j.attemptsMade + 1 in stalled.zombies
            && (forall withJob: bool :: j.stalls == 0 ==>
                  Step(stalled, Recover(withJob)) == stalled.(status := Waiting, stalls := 1))
            && (forall withJob: bool :: j.stalls > 0 ==>
                  var k := Step(stalled, Recover(withJob));
                  && k.status == Failed && k.finishedOn
                  && k.deadLettered == j.deadLettered + (if withJob then [j.attemptsMade] else []))
  {
  }

  lemma ZombieThrowCounts(j: Job, attempt: nat, e: Thrown)
    requires Plain(e) && attempt in j.zombies && attempt >= 1
    ensures var k := Step(j, ZombieThrow(attempt, e));
            && k.jobsRetrying == j.jobsRetrying + (if j.attempts.Some? && attempt < j.attempts.value then 1 else 0)
            && k.status == j.status && k.attemptsMade == j.attemptsMade && k.runs == j.runs
            && k.deadLettered == j.deadLettered && k.zombies == j.zombies - multiset{attempt}
  {
    ZombieStep(j, ZombieThrow(attempt, e));
  }

  /** Only an event without the job leaves a failure unlabelled. */
  lemma {:induction false} UnlabelledNeedsALostJob(j: Job, ops: seq<Op>)
    requires !j.unlabelled && Recover(false) !in ops
    ensures !Run(j, ops).unlabelled
    decreases |ops|
  {
    if ops != [] {
      UnlabelledNeedsALostJob(Step(j, ops[0]), ops[1..]);
    }
  }

  /**
   A dead-letter write is triggered exactly once when the job fails for good with the job at
   hand, carries the final attempt count, and is triggered in no other case.
   */
  lemma DeadLetteredOnceIffFailed(attempts: Option<nat>, ops: seq<Op>)
    ensures var j := Run(New(attempts), ops);
            && (j.deadLettered == [j.attemptsMade] <==> j.status == Failed && !j.unlabelled)
            && (j.deadLettered == [] <==> j.status != Failed || j.unlabelled)
            && (j.unlabelled ==> j.stalledOut)
  {
    var j := Reached(attempts, ops);
  }

  /**
   The retry counter is the retries granted, less those not announced, plus those announced by
   runs without the lock; each lost lock leaves one such run, and there are at most two.
   */
  lemma RetryCounterBalances(attempts: Option<nat>, ops: seq<Op>)
    ensures var j := Run(New(attempts), ops);
            && j.jobsRetrying + j.uncounted == Granted(j) + j.overcounted + j.zombieRetries
            && j.overcounted <= (if j.status == Failed then 1 else 0)
            && |j.zombies| + j.zombieRetries <= LostLocks(j) <= MAX_STALLED_COUNT + 1
            && (forall attempt :: attempt in j.zombies ==> 1 <= attempt <= j.attemptsMade + 1)
  {
    var j := Reached(attempts, ops);
  }

  /** The operation fails an attempt of the run that holds the lock, with another one left. */
  predicate FailsWithOneLeft(j: Job, op: Op) {
    Enabled(j, op) && op.Throw? && j.attemptsMade + 1 < Allowed(j.attempts)
  }

  /** How often in a run a retry was granted that had not been announced. */
  function Misses(j: Job, ops: seq<Op>): nat
    decreases |ops|
  {
    if ops == [] then 0
    else (if FailsWithOneLeft(j, ops[0]) && Unannounced(ops[0].e) then 1 else 0) + Misses(Step(j, ops[0]), ops[1..])
  }

  /** How often in a run a retry was announced that was not granted. */
  function FalseAlarms(j: Job, ops: seq<Op>): nat
    decreases |ops|
  {
    if ops == [] then 0
    else
      (if FailsWithOneLeft(j, ops[0]) && FalselyAnnounced(ops[0].e) then 1 else 0)
      + FalseAlarms(Step(j, ops[0]), ops[1..])
  }

  lemma StepCountsMisses(j: Job, op: Op)
    ensures Step(j, op).uncounted
         == j.uncounted + (if FailsWithOneLeft(j, op) && Unannounced(op.e) then 1 else 0)
    ensures Step(j, op).overcounted
         == j.overcounted + (if FailsWithOneLeft(j, op) && FalselyAnnounced(op.e) then 1 else 0)
  {
    if op.Throw? {
      AnnouncementAgreesIff(op.e, j.attemptsMade, j.attempts);
    }
  }

  lemma {:induction false} RunCountsMisses(j: Job, ops: seq<Op>)
    ensures Run(j, ops).uncounted == j.uncounted + Misses(j, ops)
    ensures Run(j, ops).overcounted == j.overcounted + FalseAlarms(j, ops)
    decreases |ops|
  {
    if ops != [] {
      StepCountsMisses(j, ops[0]);
      RunCountsMisses(Step(j, ops[0]), ops[1..]);
    }
  }

  /** The run that is under way, or that ended the job. */
  function LastRun(j: Job): nat {
    if j.status == Active || Terminal(j) then 1 else 0
  }

  lemma RetriesWithoutStalls(j: Job)
    requires Invariant(j) && j.stalls == 0 && j.status != Stalled
    ensures j.runs + j.overcounted == j.jobsRetrying + j.uncounted + LastRun(j)
  {
  }

  /**
   Without lost locks, a job that has started a run has started one more than it announced
   retries, exactly when as many retries were granted unannounced as were announced in vain; the
   latter happens at most once, and ends the job.
   */
  lemma RunsAreRetriesPlusOneIff(attempts: Option<nat>, ops: seq<Op>)
    ensures var start := New(attempts); var j := Run(start, ops);
            && FalseAlarms(start, ops) <= (if j.status == Failed then 1 else 0)
            && (j.stalls == 0 && j.status != Stalled ==>
                  (j.runs == j.jobsRetrying + LastRun(j) <==> Misses(start, ops) == FalseAlarms(start, ops)))
  {
    RunCountsMisses(New(attempts), ops);
    var j := Reached(attempts, ops);
    if j.stalls == 0 && j.status != Stalled {
      RetriesWithoutStalls(j);
    }
  }

  /** Once terminal, a job's outcome never changes, whatever runs without a lock still do. */
  lemma {:induction false} TerminalIsAbsorbing(j: Job, ops: seq<Op>)
    requires Terminal(j)
    ensures var k := Run(j, ops);
            k.status == j.status && k.attemptsMade == j.attemptsMade && k.finishedOn == j.finishedOn
            && k.runs == j.runs && k.deadLettered == j.deadLettered
    decreases |ops|
  {
    if ops != [] {
      TerminalIsAbsorbing(Step(j, ops[0]), ops[1..]);
    }
  }
}
