/**
 A failed job retried by hand, any number of times, and the dead-letter records its terminal
 failures get. A retry by hand keeps the attempts counted so far; whether it keeps the count of
 stalls is left open.
 */
module JobRevivals {
  import opened Errors
  import opened Wrappers
  import opened Sequences
  import opened JobLifecycle
  import opened DeadLetterIds

  datatype Act = Event(op: Op) | RetryByHand(stalls: nat)

  function Revived(j: Job, stalls: nat): Job {
    j.(status := Waiting, finishedOn := false, stalls := stalls, stalledOut := false, unlabelled := false)
  }

  /** A retry by hand is for a failed job; `deadLettered` goes on recording the attempts of every terminal failure. */
  function Next(j: Job, act: Act): Job {
    match act
    case Event(op) => Step(j, op)
    case RetryByHand(stalls) => if j.status == Failed then Revived(j, stalls) else j
  }

  function Live(j: Job, acts: seq<Act>): Job
    decreases |acts|
  {
    if acts == [] then j else Live(Next(j, acts[0]), acts[1..])
  }

  /** The record ids of a job's terminal failures, oldest first. */
  function RecordIds(queue: string, id: string, attempts: seq<nat>): seq<string> {
    seq(|attempts|, i requires 0 <= i < |attempts| => JobId(Failure(queue, id, attempts[i])))
  }

  /** The stalled checker fails the job for good. */
  predicate StallsOut(j: Job, act: Act) {
    act == Event(Recover(true)) && j.status == Stalled && j.stalls >= MAX_STALLED_COUNT
  }

  /** It does so though no attempt has been counted since the job's last record. */
  predicate StallsOutAgain(j: Job, act: Act) {
    StallsOut(j, act) && j.deadLettered != [] && j.deadLettered[|j.deadLettered| - 1] == j.attemptsMade
  }

  predicate NeverStallsOutAgain(j: Job, acts: seq<Act>)
    decreases |acts|
  {
    acts == [] || (!StallsOutAgain(j, acts[0]) && NeverStallsOutAgain(Next(j, acts[0]), acts[1..]))
  }

  /** Attempts are recorded in order, and none beyond those counted. */
  ghost predicate Ordered(j: Job) {
    && (forall i, k :: 0 <= i < k < |j.deadLettered| ==> j.deadLettered[i] <= j.deadLettered[k])
    && (forall i :: 0 <= i < |j.deadLettered| ==> j.deadLettered[i] <= j.attemptsMade)
  }

  /** What an act does to the attempts counted and the records written. */
  ghost predicate Records(j: Job, k: Job, act: Act) {
    if StallsOut(j, act) then k.attemptsMade == j.attemptsMade && k.deadLettered == j.deadLettered + [j.attemptsMade]
    else
      || (k.attemptsMade >= j.attemptsMade && k.deadLettered == j.deadLettered)
      || (k.attemptsMade > j.attemptsMade && k.deadLettered == j.deadLettered + [k.attemptsMade])
  }

  lemma ThrowRecords(j: Job, e: Thrown)
    ensures Records(j, Step(j, Throw(e)), Event(Throw(e)))
  {
  }

  lemma ZombiesRecordNothing(j: Job, op: Op)
    requires op.ZombieReturn? || op.ZombieThrow?
    ensures Records(j, Step(j, op), Event(op))
  {
    if op.attempt in j.zombies {
      ZombieStep(j, op);
    } else {
      assert Step(j, op) == j;
    }
  }

  lemma OthersRecord(j: Job, op: Op)
    requires !op.Throw? && !op.ZombieReturn? && !op.ZombieThrow?
    ensures Records(j, Step(j, op), Event(op))
  {
  }

  /** An act adds at most one record, with the attempts then counted: more than before unless the job stalled out. */
  lemma ActRecords(j: Job, act: Act)
    ensures Records(j, Next(j, act), act)
  {
    match act
    case Event(Throw(e)) => ThrowRecords(j, e);
    case Event(ZombieReturn(_)) => ZombiesRecordNothing(j, act.op);
    case Event(ZombieThrow(_, _)) => ZombiesRecordNothing(j, act.op);
    case Event(op) => OthersRecord(j, op);
    case RetryByHand(_) =>
  }

  lemma AppendDistinctIff(d: seq<nat>, a: nat)
    requires forall i, k :: 0 <= i < k < |d| ==> d[i] <= d[k]
    requires forall i :: 0 <= i < |d| ==> d[i] <= a
    ensures Distinct(d + [a]) <==> Distinct(d) && (d == [] || d[|d| - 1] != a)
    ensures forall i, k :: 0 <= i < k < |d + [a]| ==> (d + [a])[i] <= (d + [a])[k]
  {
    var e := d + [a];
    assert forall i :: 0 <= i < |d| ==> e[i] == d[i];
    assert e[|d|] == a;
    assert forall i :: 0 <= i < |d| ==> d[i] <= d[|d| - 1];
  }

  lemma ActKeepsOrder(j: Job, act: Act)
    requires Ordered(j)
    ensures Ordered(Next(j, act))
    ensures Distinct(Next(j, act).deadLettered) <==> Distinct(j.deadLettered) && !StallsOutAgain(j, act)
  {
    ActRecords(j, act);
    AppendDistinctIff(j.deadLettered, Next(j, act).attemptsMade);
  }

  lemma {:induction false} DistinctIff(j: Job, acts: seq<Act>)
    requires Ordered(j)
    ensures Distinct(Live(j, acts).deadLettered) <==> Distinct(j.deadLettered) && NeverStallsOutAgain(j, acts)
    decreases |acts|
  {
    if acts != [] {
      ActKeepsOrder(j, acts[0]);
      DistinctIff(Next(j, acts[0]), acts[1..]);
    }
  }

  /** Record ids of one job differ exactly where its attempts do. */
  lemma IdsDistinctIff(queue: string, id: string, attempts: seq<nat>)
    requires queue in WORKER_QUEUES
    ensures Distinct(RecordIds(queue, id, attempts)) <==> Distinct(attempts)
  {
    forall i, k | 0 <= i < |attempts| && 0 <= k < |attempts|
      ensures RecordIds(queue, id, attempts)[i] == RecordIds(queue, id, attempts)[k] <==> attempts[i] == attempts[k]
    {
      CollideIff(Failure(queue, id, attempts[i]), Failure(queue, id, attempts[k]));
    }
  }

  /**
   Each terminal failure is meant to get one record of its own. Over every life of a job, retries
   by hand included, the records are distinct exactly when the stalled checker never fails it
   again without an attempt counted since the last record.
   */
  lemma EveryFailureHasItsRecordIff(queue: string, id: string, attempts: Option<nat>, acts: seq<Act>)
    requires queue in WORKER_QUEUES
    ensures Distinct(RecordIds(queue, id, Live(New(attempts), acts).deadLettered))
       <==> NeverStallsOutAgain(New(attempts), acts)
  {
    IdsDistinctIff(queue, id, Live(New(attempts), acts).deadLettered);
    DistinctIff(New(attempts), acts);
  }

  ghost predicate FinishedIffTerminal(j: Job) {
    && (j.finishedOn <==> Terminal(j))
    && (j.stalledOut || j.unlabelled ==> j.status == Failed)
  }

  lemma ActKeepsFinished(j: Job, act: Act)
    requires FinishedIffTerminal(j)
    ensures FinishedIffTerminal(Next(j, act))
    ensures Next(j, act).deadLettered != j.deadLettered ==> Next(j, act).status == Failed
  {
    if act.Event? && (act.op.ZombieReturn? || act.op.ZombieThrow?) {
      ActRecords(j, act);
      if act.op.attempt in j.zombies {
        ZombieStep(j, act.op);
      }
    }
  }

  lemma {:induction false} LiveKeepsFinished(j: Job, acts: seq<Act>)
    requires FinishedIffTerminal(j)
    ensures FinishedIffTerminal(Live(j, acts))
    decreases |acts|
  {
    if acts != [] {
      ActKeepsFinished(j, acts[0]);
      LiveKeepsFinished(Next(j, acts[0]), acts[1..]);
    }
  }

  /** In every life a record is written only as the job fails for good, never for an intermediate failure. */
  lemma OnlyFinalFailuresAreRecorded(attempts: Option<nat>, acts: seq<Act>, act: Act)
    ensures var j := Live(New(attempts), acts); var k := Next(j, act);
            k.deadLettered != j.deadLettered ==> j.status != Failed && k.status == Failed && k.finishedOn
  {
    LiveKeepsFinished(New(attempts), acts);
    ActKeepsFinished(Live(New(attempts), acts), act);
  }

  lemma {:induction false} LiveFirst(j: Job, act: Act, rest: seq<Act>)
    ensures Live(j, [act] + rest) == Live(Next(j, act), rest)
  {
    assert ([act] + rest)[1..] == rest;
  }

  /** A run loses its lock, and the stalled checker acts. */
  const STALL: seq<Act> := [Event(Fetch), Event(LoseLock), Event(Recover(true))]

  lemma StallIsLived(j: Job, rest: seq<Act>)
    ensures Live(j, STALL + rest) == Live(Step(Step(Step(j, Fetch), LoseLock), Recover(true)), rest)
  {
    var fetched := Step(j, Fetch);
    var lost := Step(fetched, LoseLock);
    assert STALL + rest == [Event(Fetch)] + ([Event(LoseLock)] + ([Event(Recover(true))] + rest));
    LiveFirst(j, Event(Fetch), [Event(LoseLock)] + ([Event(Recover(true))] + rest));
    LiveFirst(fetched, Event(LoseLock), [Event(Recover(true))] + rest);
    LiveFirst(lost, Event(Recover(true)), rest);
  }

  /** A waiting job stalls: it waits again the first time, and fails the next. */
  lemma Stalls(j: Job, rest: seq<Act>) returns (k: Job)
    requires j.status == Waiting
    ensures Live(j, STALL + rest) == Live(k, rest) && k.attemptsMade == j.attemptsMade
    ensures j.stalls < MAX_STALLED_COUNT ==>
              k.status == Waiting && k.stalls == j.stalls + 1 && k.deadLettered == j.deadLettered
    ensures j.stalls >= MAX_STALLED_COUNT ==>
              k.status == Failed && k.deadLettered == j.deadLettered + [j.attemptsMade]
  {
    StallIsLived(j, rest);
    k := Step(Step(Step(j, Fetch), LoseLock), Recover(true));
  }

  /** A job that stalls out uncounted, is retried by hand and stalls out again: two failures, one id. */
  lemma SecondStallSharesTheRecord(attempts: Option<nat>)
    ensures exists acts :: Live(New(attempts), acts).deadLettered == [0, 0]
  {
    var j := New(attempts);
    var again := [RetryByHand(MAX_STALLED_COUNT)] + (STALL + []);
    var once := Stalls(j, STALL + again);
    var failed := Stalls(once, again);
    LiveFirst(failed, RetryByHand(MAX_STALLED_COUNT), STALL + []);
    var twice := Stalls(Revived(failed, MAX_STALLED_COUNT), []);
    assert Live(j, STALL + (STALL + again)).deadLettered == [0, 0];
  }
}
