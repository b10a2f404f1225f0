/** What the dead-letter counters count, over any run of overlapping calls. */
module DeadLetterCounters {
  import opened DeadLetterProtocol

  /** The operations of a run that took effect and have the property. */
  function Count(s: State, ops: seq<Op>, p: Op -> bool): nat
    decreases |ops|
  {
    if ops == [] then 0
    else (if Enabled(s, ops[0]) && p(ops[0]) then 1 else 0) + Count(Step(s, ops[0]), ops[1..], p)
  }

  predicate Begins(op: Op) { op.Begin? }

  predicate Settles(op: Op) { op.Settle? }

  predicate Accepts(op: Op) { op.Begin? && op.target.Some? }

  predicate LosesAdd(op: Op) { op.AddFails? }

  predicate LandsUnseen(op: Op) { op.AddFails? && op.landed }

  predicate LosesRead(op: Op) { op.ReadFails? }

  predicate LosesRemoval(op: Op) { op.RemoveFails? }

  function AddingCalls(s: State): set<CallId> {
    set c | c in s.calls && s.calls[c].Adding?
  }

  predicate EndsAdd(op: Op) { op.AddReplies? || op.AddFails? }

  /** Changing one call's phase moves at most that call. */
  lemma PhaseMovesAdds(s: State, t: State, c: CallId, phase: Phase)
    requires t.calls == s.calls[c := phase]
    ensures AddingCalls(t) == AddingCalls(s) - {c} + (if phase.Adding? then {c} else {})
  {
  }

  lemma StepMovesAdds(s: State, op: Op)
    requires Enabled(s, op)
    ensures AddingCalls(Step(s, op))
         == AddingCalls(s) - (if EndsAdd(op) then {op.c} else {}) + (if Accepts(op) then {op.c} else {})
    ensures EndsAdd(op) ==> op.c in AddingCalls(s)
    ensures Accepts(op) ==> op.c !in AddingCalls(s)
  {
    var t := Step(s, op);
    if op.Settle? {
      assert t.calls == s.calls - {op.c};
    } else {
      assert t.calls == s.calls[op.c := t.calls[op.c]];
      PhaseMovesAdds(s, t, op.c, t.calls[op.c]);
    }
  }

  /** An operation brings one call into its add, or takes one out of it, or neither. */
  lemma StepCountsAdds(s: State, op: Op)
    requires Enabled(s, op)
    ensures |AddingCalls(Step(s, op))| + (if EndsAdd(op) then 1 else 0)
         == |AddingCalls(s)| + (if Accepts(op) then 1 else 0)
  {
    StepMovesAdds(s, op);
  }

  /**
   Every accepted call is adding, dead-lettered or lost; each failure is counted once; every
   record came from an add.
   */
  lemma {:induction false} RunBalances(s: State, ops: seq<Op>)
    ensures var t := Run(s, ops);
            && t.deadLettered + Count(s, ops, LosesAdd) + |AddingCalls(t)|
            == s.deadLettered + Count(s, ops, Accepts) + |AddingCalls(s)|
            && t.writeFailures == s.writeFailures + Count(s, ops, LosesAdd) + Count(s, ops, LosesRead)
            && t.evictErrors == s.evictErrors + Count(s, ops, LosesRemoval)
            && |t.log| + s.deadLettered <= |s.log| + t.deadLettered + Count(s, ops, LandsUnseen)
    decreases |ops|
  {
    if ops != [] {
      if Enabled(s, ops[0]) {
        StepCountsAdds(s, ops[0]);
      }
      RunBalances(Step(s, ops[0]), ops[1..]);
    }
  }

  /**
   Once all calls have settled, each accepted call was counted as dead-lettered unless its add
   failed. Dead-lettered and failed writes together count every accepted call, and count twice
   exactly those whose add succeeded and whose trim then failed.
   */
  lemma EveryAcceptedCallIsCounted(s: State, ops: seq<Op>)
    requires Start(s) && Run(s, ops).calls == map[]
    ensures var t := Run(s, ops); var accepted := Count(s, ops, Accepts);
            && t.deadLettered == accepted - Count(s, ops, LosesAdd)
            && t.deadLettered + t.writeFailures == accepted + Count(s, ops, LosesRead)
            && (t.writeFailures == 0 ==> t.deadLettered == accepted && |t.log| <= |s.log| + accepted)
  {
    RunBalances(s, ops);
    LandedAddsAreLost(s, ops);
  }

  lemma {:induction false} LandedAddsAreLost(s: State, ops: seq<Op>)
    ensures Count(s, ops, LandsUnseen) <= Count(s, ops, LosesAdd)
    decreases |ops|
  {
    if ops != [] {
      LandedAddsAreLost(Step(s, ops[0]), ops[1..]);
    }
  }

  /** What `pending()` reports, refused calls included: the calls begun and not settled. */
  lemma {:induction false} PendingIsBegunMinusSettled(s: State, ops: seq<Op>)
    ensures |Run(s, ops).calls| + Count(s, ops, Settles) == |s.calls| + Count(s, ops, Begins)
    decreases |ops|
  {
    if ops != [] {
      if Enabled(s, ops[0]) {
        StepMovesCalls(s, ops[0]);
      }
      PendingIsBegunMinusSettled(Step(s, ops[0]), ops[1..]);
    }
  }

  lemma StepMovesCalls(s: State, op: Op)
    requires Enabled(s, op)
    ensures |Step(s, op).calls| + (if Settles(op) then 1 else 0) == |s.calls| + (if Begins(op) then 1 else 0)
  {
    var t := Step(s, op);
    assert t.calls.Keys == if op.Settle? then s.calls.Keys - {op.c} else s.calls.Keys + {op.c};
  }
}
