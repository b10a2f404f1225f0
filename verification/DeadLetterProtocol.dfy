/**
 The dead-letter writer as a transition system.

 Any number of `record` calls interleave, in one process or several. Between two awaits a
 call is atomic, so a call is the phase it waits in, and one operation of the system is one
 reply (or failure) reaching one call. The count and the fetch of a trim are two round
 trips, so a trim may act on a count that other calls have made stale.

 Redis obeys only what the repository states of it: an add ignores an id it already holds,
 waiting records are read oldest first, and a removal is by id.
 */
module DeadLetterProtocol {
  import opened Wrappers
  import opened Sequences

  type CallId = nat
  type RecordId = string

  /** What an unsettled call is waiting for. */
  datatype Phase =
    | Adding(id: RecordId)                // the add
    | Counting                            // the waiting count
    | Fetching(excess: nat)               // the oldest `excess` records
    | Evicting(victims: set<RecordId>)    // the removals still outstanding
    | Finishing                           // nothing but its own settlement

  /** `log` is history: every record ever inserted, in insertion order. */
  datatype State = State(
    maxEntries: nat,
    waiting: seq<RecordId>,
    log: seq<RecordId>,
    calls: map<CallId, Phase>,
    deadLettered: nat,
    writeFailures: nat,
    evictErrors: nat)

  datatype Op =
    | Begin(c: CallId, target: Option<RecordId>)   // `None`: refused by the guard
    | AddReplies(c: CallId)
    | AddFails(c: CallId, landed: bool)   // not sent, refused, or landed with its reply lost
    | CountReplies(c: CallId)
    | FetchReplies(c: CallId)
    | ReadFails(c: CallId)                // the count or the fetch fails
    | RemoveReplies(c: CallId, id: RecordId)
    | RemoveFails(c: CallId, id: RecordId)
    | Settle(c: CallId)

  predicate Enabled(s: State, op: Op) {
    if op.Begin? then op.c !in s.calls
    else
      && op.c in s.calls
      && match op
         case AddReplies(c) => s.calls[c].Adding?
         case AddFails(c, _) => s.calls[c].Adding?
         case CountReplies(c) => s.calls[c].Counting?
         case FetchReplies(c) => s.calls[c].Fetching?
         case ReadFails(c) => s.calls[c].Counting? || s.calls[c].Fetching?
         case RemoveReplies(c, id) => s.calls[c].Evicting? && id in s.calls[c].victims
         case RemoveFails(c, id) => s.calls[c].Evicting? && id in s.calls[c].victims
         case Settle(c) => s.calls[c] == Finishing || s.calls[c] == Evicting({})
         case Begin(_, _) => true
  }

  /** An add: the record is appended unless its id is already held. */
  function Insert(s: State, id: RecordId): State {
    if id in s.waiting then s else s.(waiting := s.waiting + [id], log := s.log + [id])
  }

  function AtPhase(s: State, c: CallId, phase: Phase): State {
    s.(calls := s.calls[c := phase])
  }

  function AfterCount(count: nat, maxEntries: nat): Phase {
    if count <= maxEntries then Finishing else Fetching(count - maxEntries)
  }

  /** One operation; one that is not enabled changes nothing, so a run is any sequence of operations. */
  function Step(s: State, op: Op): State {
    if !Enabled(s, op) then s
    else match op
      case Begin(c, target) =>
        AtPhase(s, c, if target.None? then Finishing else Adding(target.value))
      case AddReplies(c) =>
        AtPhase(Insert(s, s.calls[c].id), c, Counting).(deadLettered := s.deadLettered + 1)
      case AddFails(c, landed) =>
        AtPhase(if landed then Insert(s, s.calls[c].id) else s, c, Finishing).(writeFailures := s.writeFailures + 1)
      case CountReplies(c) =>
        AtPhase(s, c, AfterCount(|s.waiting|, s.maxEntries))
      case FetchReplies(c) =>
        AtPhase(s, c, Evicting(Elements(First(s.waiting, s.calls[c].excess))))
      case ReadFails(c) =>
        AtPhase(s, c, Finishing).(writeFailures := s.writeFailures + 1)
      case RemoveReplies(c, id) =>
        AtPhase(s, c, Evicting(s.calls[c].victims - {id})).(waiting := Without(s.waiting, id))
      case RemoveFails(c, id) =>
        AtPhase(s, c, Evicting(s.calls[c].victims - {id})).(evictErrors := s.evictErrors + 1)
      case Settle(c) =>
        s.(calls := s.calls - {c})
  }

  function Run(s: State, ops: seq<Op>): State
    decreases |ops|
  {
    if ops == [] then s else Run(Step(s, ops[0]), ops[1..])
  }

  ghost predicate Start(s: State) {
    && s.calls == map[] && s.log == s.waiting
    && Distinct(s.waiting) && |s.waiting| <= s.maxEntries
    && s.deadLettered == s.writeFailures == s.evictErrors == 0
  }

  // ------------------------------------------------------- the size guarantee

  /** Calls that have added their record and have not finished trimming. */
  function Trimming(s: State): set<CallId> {
    set c | c in s.calls && (s.calls[c].Counting? || s.calls[c].Fetching? || s.calls[c].Evicting?)
  }

  /** Trimming calls that have read a count above the limit. */
  function Counted(s: State): set<CallId> {
    set c | c in s.calls && (s.calls[c].Fetching? || s.calls[c].Evicting?)
  }

  /** The records a call will have removed by the time it settles, if the list stayed as it is. */
  function Claimed(s: State, c: CallId): set<RecordId> {
    if c !in s.calls then {}
    else match s.calls[c]
      case Fetching(excess) => Elements(First(s.waiting, excess))
      case Evicting(victims) => victims
      case _ => {}
  }

  function Unclaimed(s: State, calls: set<CallId>): set<RecordId> {
    set x | x in s.waiting && forall c :: c in calls ==> x !in Claimed(s, c)
  }

  /** Failures the writer has counted or logged. */
  function Failures(s: State): nat {
    s.writeFailures + s.evictErrors
  }

  /** The bound still owed once the calls in `calls` have removed what they claim. */
  ghost predicate Bounded(s: State, calls: set<CallId>) {
    |Unclaimed(s, calls)| + |calls| <= s.maxEntries + |Trimming(s)| + Failures(s)
  }

  /**
   The inductive invariant behind the size bound. Whichever set of counted calls is singled
   out, the records none of them claims fit the limit plus one for each call left over.
   */
  ghost predicate SizeInvariant(s: State) {
    && Distinct(s.waiting)
    && forall calls: set<CallId> :: calls <= Counted(s) ==> Bounded(s, calls)
  }

  lemma StartIsBounded(s: State)
    requires Start(s)
    ensures SizeInvariant(s)
  {
    forall calls: set<CallId> | calls <= Counted(s)
      ensures Bounded(s, calls)
    {
      assert calls == {};
      CardinalityOfSubset(Unclaimed(s, calls), Elements(s.waiting));
      CardinalityOfElements(s.waiting);
    }
  }

  /** A call leaves the trim having removed all it claimed: the bound loses nothing. */
  lemma SettleIsBounded(s: State, c: CallId, calls: set<CallId>)
    requires SizeInvariant(s) && Enabled(s, Settle(c)) && calls <= Counted(Step(s, Settle(c)))
    ensures Bounded(Step(s, Settle(c)), calls)
  {
    var t := Step(s, Settle(c));
    LeaveKeepsClaims(s, t, c, calls);
    if s.calls[c].Finishing? {
      assert Trimming(t) == Trimming(s);
      assert Bounded(s, calls);
    } else {
      assert Trimming(t) == Trimming(s) - {c};
      assert Bounded(s, calls + {c});
    }
  }

  lemma LeaveKeepsClaims(s: State, t: State, c: CallId, calls: set<CallId>)
    requires c in s.calls && Claimed(s, c) == {} && t.waiting == s.waiting && t.calls == s.calls - {c}
    ensures Unclaimed(t, calls) == Unclaimed(s, calls) == Unclaimed(s, calls + {c})
  {
    assert forall d :: Claimed(t, d) == Claimed(s, d);
  }

  /** A count above the limit is exact when it is read: leaving out the excess leaves the limit. */
  lemma CountIsBounded(s: State, c: CallId, calls: set<CallId>)
    requires SizeInvariant(s) && Enabled(s, CountReplies(c)) && calls <= Counted(Step(s, CountReplies(c)))
    ensures Bounded(Step(s, CountReplies(c)), calls)
  {
    var t := Step(s, CountReplies(c));
    CardinalityOfElements(s.waiting);
    if |s.waiting| <= s.maxEntries {
      assert Trimming(t) == Trimming(s) - {c};
      CardinalityOfSubset(Unclaimed(t, calls), Elements(s.waiting));
      CardinalityOfSubset(calls, Trimming(t));
    } else {
      assert Trimming(t) == Trimming(s);
      if c in calls {
        var excess := |s.waiting| - s.maxEntries;
        var rest := s.waiting[excess..];
        assert s.waiting == First(s.waiting, excess) + rest;
        assert Claimed(t, c) == Elements(First(s.waiting, excess));
        CardinalityOfElements(rest);
        CardinalityOfSubset(Unclaimed(t, calls), Elements(rest));
        CardinalityOfSubset(calls, Trimming(t));
      } else {
        assert Unclaimed(t, calls) == Unclaimed(s, calls);
        assert Bounded(s, calls);
      }
    }
  }

  /** Fetching turns a claim on the oldest records into a claim on those very ids. */
  lemma FetchIsBounded(s: State, c: CallId, calls: set<CallId>)
    requires SizeInvariant(s) && Enabled(s, FetchReplies(c)) && calls <= Counted(Step(s, FetchReplies(c)))
    ensures Bounded(Step(s, FetchReplies(c)), calls)
  {
    var t := Step(s, FetchReplies(c));
    assert Trimming(t) == Trimming(s);
    assert forall d :: Claimed(t, d) == Claimed(s, d);
    assert Unclaimed(t, calls) == Unclaimed(s, calls);
    assert Bounded(s, calls);
  }

  /** Removing a claimed record only moves other claims further down the list. */
  lemma RemoveIsBounded(s: State, c: CallId, id: RecordId, calls: set<CallId>)
    requires SizeInvariant(s) && Enabled(s, RemoveReplies(c, id))
    requires calls <= Counted(Step(s, RemoveReplies(c, id)))
    ensures Bounded(Step(s, RemoveReplies(c, id)), calls)
  {
    var t := Step(s, RemoveReplies(c, id));
    assert Trimming(t) == Trimming(s);
    WithoutRemoves(s.waiting, id);
    forall d | d in calls
      ensures Claimed(s, d) - {id} <= Claimed(t, d)
    {
      if s.calls[d].Fetching? {
        FirstAfterWithout(s.waiting, id, s.calls[d].excess);
      }
    }
    CardinalityOfSubset(Unclaimed(t, calls), Unclaimed(s, calls));
    assert Bounded(s, calls);
  }

  /** A failed removal keeps one record that was claimed, and is counted. */
  lemma RemoveFailureIsBounded(s: State, c: CallId, id: RecordId, calls: set<CallId>)
    requires SizeInvariant(s) && Enabled(s, RemoveFails(c, id)) && calls <= Counted(Step(s, RemoveFails(c, id)))
    ensures Bounded(Step(s, RemoveFails(c, id)), calls)
  {
    var t := Step(s, RemoveFails(c, id));
    assert Trimming(t) == Trimming(s);
    assert forall d :: Claimed(s, d) - {id} <= Claimed(t, d);
    CardinalityOfSubset(Unclaimed(t, calls), Unclaimed(s, calls) + {id});
    assert Bounded(s, calls);
  }

  lemma InsertKeepsClaims(s: State, id: RecordId, calls: set<CallId>)
    ensures Unclaimed(Insert(s, id), calls) <= Unclaimed(s, calls) + {id}
  {
    var t := Insert(s, id);
    forall d
      ensures Claimed(s, d) <= Claimed(t, d)
    {
      if d in s.calls && s.calls[d].Fetching? {
        FirstOfPrefix(s.waiting, t.waiting, s.calls[d].excess);
      }
    }
  }

  /** Moving a call that claims nothing to a phase that claims nothing. */
  lemma MoveKeepsClaims(s: State, t: State, c: CallId, phase: Phase, calls: set<CallId>)
    requires c !in calls && t.waiting == s.waiting && t.calls == s.calls[c := phase]
    ensures Unclaimed(t, calls) == Unclaimed(s, calls)
  {
    assert forall d :: d in calls ==> Claimed(t, d) == Claimed(s, d);
  }

  /** A new record is paid for by the call that must now trim. */
  lemma AddIsBounded(s: State, c: CallId, calls: set<CallId>)
    requires SizeInvariant(s) && Enabled(s, AddReplies(c)) && calls <= Counted(Step(s, AddReplies(c)))
    ensures Bounded(Step(s, AddReplies(c)), calls)
  {
    var t := Step(s, AddReplies(c));
    var id := s.calls[c].id;
    assert Bounded(s, calls);
    InsertKeepsClaims(s, id, calls);
    MoveKeepsClaims(Insert(s, id), t, c, Counting, calls);
    CardinalityOfSubset(Unclaimed(t, calls), Unclaimed(s, calls) + {id});
    assert Trimming(t) == Trimming(s) + {c};
  }

  /** A record whose add reply was lost is never trimmed for, and is counted as a failure. */
  lemma AddFailureIsBounded(s: State, c: CallId, landed: bool, calls: set<CallId>)
    requires SizeInvariant(s) && Enabled(s, AddFails(c, landed)) && calls <= Counted(Step(s, AddFails(c, landed)))
    ensures Bounded(Step(s, AddFails(c, landed)), calls)
  {
    var t := Step(s, AddFails(c, landed));
    var id := s.calls[c].id;
    assert Bounded(s, calls);
    assert Trimming(t) == Trimming(s);
    if landed {
      InsertKeepsClaims(s, id, calls);
      MoveKeepsClaims(Insert(s, id), t, c, Finishing, calls);
      CardinalityOfSubset(Unclaimed(t, calls), Unclaimed(s, calls) + {id});
    } else {
      MoveKeepsClaims(s, t, c, Finishing, calls);
    }
  }

  lemma ReadFailureIsBounded(s: State, c: CallId, calls: set<CallId>)
    requires SizeInvariant(s) && Enabled(s, ReadFails(c)) && calls <= Counted(Step(s, ReadFails(c)))
    ensures Bounded(Step(s, ReadFails(c)), calls)
  {
    var t := Step(s, ReadFails(c));
    assert Trimming(t) == Trimming(s) - {c};
    MoveKeepsClaims(s, t, c, Finishing, calls);
    assert Bounded(s, calls);
  }

  lemma BeginIsBounded(s: State, op: Op, calls: set<CallId>)
    requires SizeInvariant(s) && Enabled(s, op) && op.Begin? && calls <= Counted(Step(s, op))
    ensures Bounded(Step(s, op), calls)
  {
    var t := Step(s, op);
    assert Trimming(t) == Trimming(s);
    MoveKeepsClaims(s, t, op.c, t.calls[op.c], calls);
    assert Bounded(s, calls);
  }

  lemma StepKeepsSizeInvariant(s: State, op: Op)
    requires SizeInvariant(s)
    ensures SizeInvariant(Step(s, op))
  {
    var t := Step(s, op);
    if Enabled(s, op) {
      if op.RemoveReplies? {
        WithoutRemoves(s.waiting, op.id);
      }
      forall calls: set<CallId> | calls <= Counted(t)
        ensures Bounded(t, calls)
      {
        match op
        case Begin(_, _) => BeginIsBounded(s, op, calls);
        case AddReplies(c) => AddIsBounded(s, c, calls);
        case AddFails(c, landed) => AddFailureIsBounded(s, c, landed, calls);
        case CountReplies(c) => CountIsBounded(s, c, calls);
        case FetchReplies(c) => FetchIsBounded(s, c, calls);
        case ReadFails(c) => ReadFailureIsBounded(s, c, calls);
        case RemoveReplies(c, id) => RemoveIsBounded(s, c, id, calls);
        case RemoveFails(c, id) => RemoveFailureIsBounded(s, c, id, calls);
        case Settle(c) => SettleIsBounded(s, c, calls);
      }
    }
  }

  lemma {:induction false} RunKeepsSizeInvariant(s: State, ops: seq<Op>)
    requires SizeInvariant(s)
    ensures SizeInvariant(Run(s, ops))
    ensures Run(s, ops).maxEntries == s.maxEntries
    decreases |ops|
  {
    if ops != [] {
      StepKeepsSizeInvariant(s, ops[0]);
      RunKeepsSizeInvariant(Step(s, ops[0]), ops[1..]);
    }
  }

  /**
   In every run, the list is free of duplicates and exceeds the limit by at most the calls
   still trimming plus the failures counted; so with no failure and no unsettled call it is
   within the limit.
   */
  lemma SizeBound(s: State, ops: seq<Op>)
    requires Start(s)
    ensures
      var t := Run(s, ops);
      && Distinct(t.waiting)
      && |t.waiting| <= s.maxEntries + |Trimming(t)| + Failures(t)
      && |t.waiting| <= s.maxEntries + |t.calls| + Failures(t)
  {
    StartIsBounded(s);
    RunKeepsSizeInvariant(s, ops);
    var t := Run(s, ops);
    assert Bounded(t, {});
    assert Unclaimed(t, {}) == Elements(t.waiting);
    CardinalityOfElements(t.waiting);
    CardinalityOfSubset(Trimming(t), t.calls.Keys);
  }
}
