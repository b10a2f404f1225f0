/**
 The writer itself: the in-flight calls and counters it holds, and the shared waiting list its
 Redis replies act on. Each method is what one event-loop task does to that state.
 */
module DeadLetterWriter {
  import opened Wrappers
  import opened DeadLetterIds
  import opened Sequences
  import opened DeadLetterProtocol
  import Serialization = SerializeError
  import Counters = DeadLetterCounters

  const REASON_MAX_CHARS: nat := 2_000

  /** The part of a `record` input that the protocol depends on. */
  datatype Input = Input(sourceQueue: string, jobId: Option<string>, attemptsMade: nat, error: Serialization.Value)

  /** What thrown values look like from here: their properties, and how they render. */
  datatype Surroundings = Surroundings(heap: Serialization.Heap, show: Serialization.Show)

  /** The record a failure is written to; none for a job of the dead-letter queue itself. */
  function Target(input: Input): Option<RecordId> {
    if input.sourceQueue == DEAD_LETTER_QUEUE then None
    else Some(JobId(Failure(input.sourceQueue, input.jobId.GetOr("unknown"), input.attemptsMade)))
  }

  /** The record's summary of the error. */
  function Summary(around: Surroundings, input: Input): Result<string, Serialization.FormatError> {
    Serialization.FormatErrorReason(around.heap, around.show, input.error, REASON_MAX_CHARS)
  }

  /** A failure that should have been recorded, and whose error defeats the record's summary. */
  predicate Lost(around: Surroundings, input: Input) {
    Target(input).Some? && Summary(around, input).Err?
  }

  /** The reference for one undisturbed call: a sliding window over insertion order. */
  function Window(waiting: seq<RecordId>, id: RecordId, maxEntries: nat): seq<RecordId> {
    Last(if id in waiting then waiting else waiting + [id], maxEntries)
  }

  class Writer {
    const maxEntries: nat
    const around: Surroundings
    var waiting: seq<RecordId>
    var inFlight: map<CallId, Phase>
    var deadLettered: nat
    var writeFailures: nat
    var evictErrors: nat
    ghost var log: seq<RecordId>

    constructor (maxEntries: nat, around: Surroundings, waiting: seq<RecordId>)
      ensures this.maxEntries == maxEntries && this.around == around
      ensures View() == State(maxEntries, waiting, waiting, map[], 0, 0, 0)
    {
      this.maxEntries, this.around := maxEntries, around;
      this.waiting, log := waiting, waiting;
      inFlight := map[];
      deadLettered, writeFailures, evictErrors := 0, 0, 0;
    }

    ghost function View(): State
      reads this
    {
      State(maxEntries, waiting, log, inFlight, deadLettered, writeFailures, evictErrors)
    }

    /** In whatever run the writer has got here, the calls begun that have not settled. */
    method Pending(ghost start: State, ghost ops: seq<Op>) returns (n: nat)
      requires start.calls == map[] && View() == Run(start, ops)
      ensures n + Counters.Count(start, ops, Counters.Settles) == Counters.Count(start, ops, Counters.Begins)
    {
      Counters.PendingIsBegunMinusSettled(start, ops);
      n := |inFlight|;
    }

    /**
     The synchronous part of `record`: the guard, the error's summary, and the add it issues. An
     error that cannot be summarized makes a write that fails before its add.
     */
    method BeginRecord(c: CallId, input: Input)
      requires c !in inFlight
      modifies this
      ensures var begun := Step(old(View()), Begin(c, Target(input)));
              View() == if Lost(around, input) then Step(begun, AddFails(c, false)) else begun
    {
      if input.sourceQueue == DEAD_LETTER_QUEUE {
        inFlight := inFlight[c := Finishing];
        return;
      }
      if Summary(around, input).Err? {
        writeFailures := writeFailures + 1;
        inFlight := inFlight[c := Finishing];
        return;
      }
      var sourceJobId := input.jobId.GetOr("unknown");
      var id := JobId(Failure(input.sourceQueue, sourceJobId, input.attemptsMade));
      inFlight := inFlight[c := Adding(id)];
    }

    method OnAddReply(c: CallId)
      requires c in inFlight && inFlight[c].Adding?
      modifies this
      ensures View() == Step(old(View()), AddReplies(c))
    {
      Add(inFlight[c].id);
      deadLettered := deadLettered + 1;
      inFlight := inFlight[c := Counting];
    }

    method OnAddError(c: CallId, landed: bool)
      requires c in inFlight && inFlight[c].Adding?
      modifies this
      ensures View() == Step(old(View()), AddFails(c, landed))
    {
      if landed {
        Add(inFlight[c].id);
      }
      writeFailures := writeFailures + 1;
      inFlight := inFlight[c := Finishing];
    }

    /** What Redis does with an add. */
    method Add(id: RecordId)
      modifies this
      ensures View() == Insert(old(View()), id)
    {
      if id !in waiting {
        waiting := waiting + [id];
        log := log + [id];
      }
    }

    method OnCountReply(c: CallId)
      requires c in inFlight && inFlight[c].Counting?
      modifies this
      ensures View() == Step(old(View()), CountReplies(c))
    {
      var count := |waiting|;
      if count <= maxEntries {
        inFlight := inFlight[c := Finishing];
        return;
      }
      var excess := count - maxEntries;
      inFlight := inFlight[c := Fetching(excess)];
    }

    method OnFetchReply(c: CallId)
      requires c in inFlight && inFlight[c].Fetching?
      modifies this
      ensures View() == Step(old(View()), FetchReplies(c))
    {
      var oldest := First(waiting, inFlight[c].excess);
      inFlight := inFlight[c := Evicting(Elements(oldest))];
    }

    method OnReadError(c: CallId)
      requires c in inFlight && (inFlight[c].Counting? || inFlight[c].Fetching?)
      modifies this
      ensures View() == Step(old(View()), ReadFails(c))
    {
      writeFailures := writeFailures + 1;
      inFlight := inFlight[c := Finishing];
    }

    method OnRemoveReply(c: CallId, id: RecordId)
      requires c in inFlight && inFlight[c].Evicting? && id in inFlight[c].victims
      modifies this
      ensures View() == Step(old(View()), RemoveReplies(c, id))
    {
      waiting := Without(waiting, id);
      inFlight := inFlight[c := Evicting(inFlight[c].victims - {id})];
    }

    /** A failed removal is swallowed: the call goes on, and only a log line tells. */
    method OnRemoveError(c: CallId, id: RecordId)
      requires c in inFlight && inFlight[c].Evicting? && id in inFlight[c].victims
      modifies this
      ensures View() == Step(old(View()), RemoveFails(c, id))
    {
      evictErrors := evictErrors + 1;
      inFlight := inFlight[c := Evicting(inFlight[c].victims - {id})];
    }

    method OnSettled(c: CallId)
      requires c in inFlight && (inFlight[c] == Finishing || inFlight[c] == Evicting({}))
      modifies this
      ensures View() == Step(old(View()), Settle(c))
    {
      inFlight := inFlight - {c};
    }

    /** The removals of one trim, issued together; here they reply in order. */
    method EvictAll(c: CallId, oldest: seq<RecordId>)
      requires inFlight == map[c := Evicting(Elements(oldest))]
      requires oldest <= waiting && Distinct(waiting)
      modifies this
      ensures View() == old(View()).(waiting := old(waiting)[|oldest|..], calls := map[c := Evicting({})])
    {
      var i := 0;
      assert oldest[0..] == oldest;
      while i < |oldest|
        invariant 0 <= i <= |oldest|
        invariant View() == old(View()).(
                              waiting := old(waiting)[i..],
                              calls := map[c := Evicting(Elements(oldest[i..]))])
      {
        assert waiting[0] == oldest[i] && oldest[i..] == [oldest[i]] + oldest[i + 1..];
        assert Elements(oldest[i..]) - {oldest[i]} == Elements(oldest[i + 1..]);
        OnRemoveReply(c, oldest[i]);
        i := i + 1;
      }
      assert Elements(oldest[i..]) == {};
    }

    /** A trim that nothing overlaps leaves the newest `maxEntries` records. */
    method Trim(c: CallId)
      requires inFlight == map[c := Counting] && Distinct(waiting)
      modifies this
      ensures inFlight == map[c := Finishing] || inFlight == map[c := Evicting({})]
      ensures View() == old(View()).(waiting := Last(old(waiting), maxEntries), calls := inFlight)
    {
      OnCountReply(c);
      if inFlight[c].Finishing? {
        assert Last(waiting, maxEntries) == waiting;
        return;
      }
      var oldest := First(waiting, inFlight[c].excess);
      OnFetchReply(c);
      EvictAll(c, oldest);
    }

    /** One `record` run to its end with nothing else in flight is the sliding window. */
    method RecordAlone(c: CallId, input: Input)
      requires inFlight == map[] && Distinct(waiting)
      modifies this
      ensures inFlight == map[] && Distinct(waiting)
      ensures Target(input).None? ==> View() == old(View())
      ensures Lost(around, input) ==>
                View() == old(View()).(writeFailures := old(writeFailures) + 1)
      ensures Target(input).Some? && !Lost(around, input) ==>
                && waiting == Window(old(waiting), Target(input).value, maxEntries)
                && deadLettered == old(deadLettered) + 1
                && writeFailures == old(writeFailures) && evictErrors == old(evictErrors)
    {
      BeginRecord(c, input);
      if inFlight[c].Adding? {
        OnAddReply(c);
        Trim(c);
      }
      OnSettled(c);
    }
  }

  /** Within the limit, a record already held changes nothing, and a new one displaces at most the oldest. */
  lemma WindowWithinLimit(waiting: seq<RecordId>, id: RecordId, maxEntries: nat)
    requires |waiting| <= maxEntries
    ensures id in waiting ==> Window(waiting, id, maxEntries) == waiting
    ensures id !in waiting ==>
              Window(waiting, id, maxEntries)
              == if |waiting| < maxEntries then waiting + [id] else (waiting + [id])[1..]
  {
    assert Last(waiting, maxEntries) == waiting;
  }

  /**
   A worker's failure is lost exactly when some value within three causes of its error cannot be
   classified or throws when rendered, or the error itself gives no message.
   */
  lemma WorkerFailureIsLostIff(around: Surroundings, input: Input)
    requires input.sourceQueue in WORKER_QUEUES
    ensures Lost(around, input)
       <==> Serialization.FailsWithin(around.heap, around.show, input.error, 3)
            || Serialization.NoMessageFor(around.heap, around.show, input.error)
  {
    WorkersAreNotTheDeadLetterQueue();
    Serialization.FormatFailsIff(around.heap, around.show, input.error, REASON_MAX_CHARS);
  }

  /** A record's summary has at most 2000 characters, and is cut only if the whole one is longer. */
  lemma SummaryFits(around: Surroundings, input: Input)
    requires Summary(around, input).Ok?
    ensures |Summary(around, input).value| <= 2_000
    ensures var whole := Serialization.Reason(around.heap, around.show, input.error);
            whole.Ok? && (|whole.value| <= 2_000 ==> Summary(around, input) == whole)
  {
    Serialization.ReasonFitsIff(around.heap, around.show, input.error, REASON_MAX_CHARS);
  }

  /** The handler of a failed write serializes in turn what the write threw, and `record` rejects if that throws. */
  predicate RecordRejects(around: Surroundings, input: Input) {
    Lost(around, input)
    && match Summary(around, input).error
       case NoMessage => false
       case Unserializable(EngineError) => false
       case Unserializable(Raised(value)) => Serialization.SerializeValue(around.heap, around.show, value).Err?
  }

  /**
   `record` is meant never to reject. Given that Redis errors serialize, it does exactly when
   serializing the error throws a value for which, within three causes, the same holds.
   */
  lemma RecordRejectsIff(around: Surroundings, input: Input)
    ensures RecordRejects(around, input)
       <==> Target(input).Some? && exists value ::
              && Serialization.SerializeValue(around.heap, around.show, input.error)
                 == Err(Serialization.Raised(value))
              && Serialization.FailsWithin(around.heap, around.show, value, 3)
  {
    forall value
      ensures Serialization.SerializeValue(around.heap, around.show, value).Err?
         <==> Serialization.FailsWithin(around.heap, around.show, value, 3)
    {
      Serialization.SerializeFailsIff(around.heap, around.show, value, 0);
    }
  }

  /** One length, and at every place one character or two that flatten to `_`. */
  predicate SameFlattened(a: string, b: string) {
    |a| == |b| && forall i :: 0 <= i < |a| ==> a[i] == b[i] || (Blank(a[i]) && Blank(b[i]))
  }

  /** A worker's failures are never refused, and share a record exactly when their ids collide. */
  lemma TargetsCollideIff(f: Input, g: Input)
    requires f.sourceQueue in WORKER_QUEUES && g.sourceQueue in WORKER_QUEUES
    ensures Target(f).Some? && Target(g).Some?
    ensures Target(f) == Target(g)
       <==> f.sourceQueue == g.sourceQueue && f.attemptsMade == g.attemptsMade
            && SameFlattened(f.jobId.GetOr("unknown"), g.jobId.GetOr("unknown"))
  {
    WorkersAreNotTheDeadLetterQueue();
    CollideByCharacterIff(Failure(f.sourceQueue, f.jobId.GetOr("unknown"), f.attemptsMade),
                          Failure(g.sourceQueue, g.jobId.GetOr("unknown"), g.attemptsMade));
  }

  /** Only a job of the dead-letter queue is refused; a job without an id is recorded as one whose id is `unknown`. */
  lemma RefusedIffDeadLetter(input: Input)
    ensures Target(input).None? <==> input.sourceQueue == "dead-letter"
    ensures input.jobId.None? ==> Target(input) == Target(input.(jobId := Some("unknown")))
  {
  }

  lemma WorkersAreNotTheDeadLetterQueue()
    ensures DEAD_LETTER_QUEUE !in WORKER_QUEUES
  {
    assert DEAD_LETTER_QUEUE[0] == 'd';
    assert forall q :: q in WORKER_QUEUES ==> q[0] == 'e' || q[0] == 'r' || q[0] == 'm';
  }
}
