/**
 Which dead-letter records survive overlapping trims.

 The design evicts the oldest records first so that recent failures are the ones kept. This
 module proves when that holds, and exactly which operations break it: an add whose id an
 earlier eviction still names, a failed removal that spares a record no other call will remove,
 and a fetch acting on a count that has gone stale.
 */
module DeadLetterRecency {
  import opened Sequences
  import opened DeadLetterProtocol

  /** The ids that some call has fetched and has yet to remove. */
  ghost function Pending(s: State): set<RecordId> {
    set c, x | c in s.calls && s.calls[c].Evicting? && x in s.calls[c].victims :: x
  }

  /** The newest `n` records of `log` are held in order; exactly the older held ones are pending removal. */
  ghost predicate NewestHeld(w: seq<RecordId>, log: seq<RecordId>, pending: set<RecordId>, n: nat) {
    && n <= |log| && n <= |w|
    && Last(w, n) == Last(log, n)
    && forall i :: 0 <= i < |w| ==> (w[i] in pending <==> i < |w| - n)
  }

  ghost predicate KeepsNewest(s: State, n: nat) {
    Distinct(s.waiting) && NewestHeld(s.waiting, s.log, Pending(s), n)
  }

  ghost predicate Recent(s: State) {
    exists n :: KeepsNewest(s, n)
  }

  /** An add is clean unless it inserts an id that a pending removal still names. */
  ghost predicate CleanAdd(s: State, id: RecordId) {
    id in s.waiting || id !in Pending(s)
  }

  /** A failed removal is clean unless it spares a held record that no other call will remove. */
  ghost predicate CleanRemoveFailure(s: State, c: CallId, id: RecordId) {
    id !in s.waiting || id in Pending(Step(s, RemoveFails(c, id)))
  }

  ghost predicate Clean(s: State, op: Op) {
    Enabled(s, op) ==>
      match op
      case AddReplies(c) => CleanAdd(s, s.calls[c].id)
      case AddFails(c, landed) => landed ==> CleanAdd(s, s.calls[c].id)
      case RemoveFails(c, id) => CleanRemoveFailure(s, c, id)
      case _ => true
  }

  /** A fetch is fresh when the list has not shrunk below the count it acts on. */
  predicate Fresh(s: State, op: Op) {
    Enabled(s, op) && op.FetchReplies? ==> |s.waiting| >= s.maxEntries + s.calls[op.c].excess
  }

  ghost predicate CleanRun(s: State, ops: seq<Op>)
    decreases |ops|
  {
    ops == [] || (Clean(s, ops[0]) && CleanRun(Step(s, ops[0]), ops[1..]))
  }

  predicate FreshRun(s: State, ops: seq<Op>)
    decreases |ops|
  {
    ops == [] || (Fresh(s, ops[0]) && FreshRun(Step(s, ops[0]), ops[1..]))
  }

  function Min(a: nat, b: nat): nat {
    if a <= b then a else b
  }

  // ------------------------------------------------------------- on the list

  lemma AppendKeepsNewest(w: seq<RecordId>, log: seq<RecordId>, pending: set<RecordId>, id: RecordId, n: nat)
    requires NewestHeld(w, log, pending, n) && id !in pending
    ensures NewestHeld(w + [id], log + [id], pending, n + 1)
  {
    assert Last(w + [id], n + 1) == Last(w, n) + [id];
    assert Last(log + [id], n + 1) == Last(log, n) + [id];
  }

  lemma DoomOldestKeepsNewest(w: seq<RecordId>, log: seq<RecordId>, pending: set<RecordId>, taken: nat, n: nat)
    requires Distinct(w) && NewestHeld(w, log, pending, n)
    ensures NewestHeld(w, log, pending + Elements(First(w, taken)), Min(n, |w| - |First(w, taken)|))
  {
    var oldest := First(w, taken);
    var m := Min(n, |w| - |oldest|);
    assert Last(w, m) == Last(Last(w, n), m);
    assert Last(log, m) == Last(Last(log, n), m);
    forall i | 0 <= i < |w|
      ensures w[i] in oldest <==> i < |oldest|
    {
      if i < |oldest| {
        assert oldest[i] == w[i];
      }
    }
  }

  lemma LastAfterRemoval<T>(w: seq<T>, k: nat, n: nat)
    requires k < |w| - n
    ensures Last(w[..k] + w[k + 1..], n) == Last(w, n)
  {
  }

  lemma TakingOutKeepsNewest(
    w: seq<RecordId>, log: seq<RecordId>, before: set<RecordId>, after: set<RecordId>, k: nat, n: nat)
    requires Distinct(w) && NewestHeld(w, log, before, n)
    requires k < |w| && w[k] in before && before - {w[k]} <= after <= before
    ensures NewestHeld(w[..k] + w[k + 1..], log, after, n)
  {
    var v := w[..k] + w[k + 1..];
    assert k < |w| - n;
    LastAfterRemoval(w, k, n);
    forall i | 0 <= i < |v|
      ensures v[i] in after <==> i < |v| - n
    {
      var j := if i < k then i else i + 1;
      assert v[i] == w[j] && w[j] != w[k];
    }
  }

  /** Removing a pending id takes a record from before the newest `n`, or nothing. */
  lemma WithoutKeepsNewest(
    w: seq<RecordId>, log: seq<RecordId>, before: set<RecordId>, after: set<RecordId>, id: RecordId, n: nat)
    requires Distinct(w) && NewestHeld(w, log, before, n)
    requires id in before && before - {id} <= after <= before
    ensures NewestHeld(Without(w, id), log, after, n)
  {
    if id !in w {
      WithoutAbsent(w, id);
    } else {
      var k :| 0 <= k < |w| && w[k] == id;
      WithoutAt(w, k);
      TakingOutKeepsNewest(w, log, before, after, k, n);
    }
  }

  // ------------------------------------------------------ one operation each

  ghost predicate StillEvicting(s: State, t: State) {
    forall c :: c in s.calls && s.calls[c].Evicting? && s.calls[c].victims != {} ==>
      c in t.calls && t.calls[c] == s.calls[c]
  }

  lemma PendingUnchanged(s: State, t: State)
    requires StillEvicting(s, t) && StillEvicting(t, s)
    ensures Pending(t) == Pending(s)
  {
  }

  /** At least the limit of records, or all there ever were, are among the newest `n`. */
  predicate KeepsLimit(s: State, n: nat) {
    n >= Min(s.maxEntries, |s.log|)
  }

  /** Every clean operation keeps the newest records, and a fresh fetch keeps at least the limit of them. */
  lemma StepKeepsNewest(s: State, op: Op, n: nat) returns (m: nat)
    requires KeepsNewest(s, n) && Clean(s, op)
    ensures KeepsNewest(Step(s, op), m)
    ensures Fresh(s, op) && KeepsLimit(s, n) ==> KeepsLimit(Step(s, op), m)
  {
    m := n;
    if Enabled(s, op) {
      match op
      case AddReplies(c) => m := AddKeepsNewest(s, op, n);
      case AddFails(c, landed) => m := AddKeepsNewest(s, op, n);
      case FetchReplies(c) => m := FetchKeepsNewest(s, c, n);
      case RemoveReplies(c, id) => RemoveKeepsNewest(s, c, id, n);
      case RemoveFails(c, id) => RemoveFailureKeepsNewest(s, c, id, n);
      case _ => OthersKeepNewest(s, op, n);
    }
  }

  /** The remaining operations touch neither the list nor what is pending. */
  lemma OthersKeepNewest(s: State, op: Op, n: nat)
    requires KeepsNewest(s, n)
    requires op.Begin? || op.CountReplies? || op.ReadFails? || op.Settle?
    ensures KeepsNewest(Step(s, op), n)
    ensures KeepsLimit(s, n) ==> KeepsLimit(Step(s, op), n)
  {
    PendingUnchanged(s, Step(s, op));
  }

  lemma AddKeepsNewest(s: State, op: Op, n: nat) returns (m: nat)
    requires KeepsNewest(s, n) && Clean(s, op) && Enabled(s, op) && (op.AddReplies? || op.AddFails?)
    ensures KeepsNewest(Step(s, op), m)
    ensures n <= m && (KeepsLimit(s, n) ==> KeepsLimit(Step(s, op), m))
  {
    var id := s.calls[op.c].id;
    PendingUnchanged(s, Step(s, op));
    m := n;
    if (op.AddFails? ==> op.landed) && id !in s.waiting {
      AppendKeepsNewest(s.waiting, s.log, Pending(s), id, n);
      m := n + 1;
    }
  }

  lemma FetchKeepsNewest(s: State, c: CallId, n: nat) returns (m: nat)
    requires KeepsNewest(s, n) && Enabled(s, FetchReplies(c))
    ensures m == Min(n, |s.waiting| - |First(s.waiting, s.calls[c].excess)|)
    ensures KeepsNewest(Step(s, FetchReplies(c)), m)
    ensures Fresh(s, FetchReplies(c)) && KeepsLimit(s, n) ==> KeepsLimit(Step(s, FetchReplies(c)), m)
  {
    var t := Step(s, FetchReplies(c));
    var oldest := Elements(First(s.waiting, s.calls[c].excess));
    m := Min(n, |s.waiting| - |First(s.waiting, s.calls[c].excess)|);
    assert t.calls[c] == Evicting(oldest);
    assert forall x :: x in oldest ==> x in Pending(t);
    assert forall d :: d in s.calls && s.calls[d].Evicting? ==> t.calls[d] == s.calls[d];
    assert Pending(t) == Pending(s) + oldest;
    DoomOldestKeepsNewest(s.waiting, s.log, Pending(s), s.calls[c].excess, n);
  }

  /** A call has done with one of its victims; other calls may still name it. */
  lemma OneLessPending(s: State, t: State, c: CallId, id: RecordId)
    requires c in s.calls && s.calls[c].Evicting?
    requires t.calls == s.calls[c := Evicting(s.calls[c].victims - {id})]
    ensures Pending(s) - {id} <= Pending(t) <= Pending(s)
  {
    assert forall x :: x in s.calls[c].victims && x != id ==> x in t.calls[c].victims;
    assert forall d :: d in s.calls && d != c ==> t.calls[d] == s.calls[d];
  }

  lemma RemoveFailureKeepsNewest(s: State, c: CallId, id: RecordId, n: nat)
    requires KeepsNewest(s, n) && Enabled(s, RemoveFails(c, id)) && CleanRemoveFailure(s, c, id)
    ensures KeepsNewest(Step(s, RemoveFails(c, id)), n)
    ensures KeepsLimit(s, n) ==> KeepsLimit(Step(s, RemoveFails(c, id)), n)
  {
    var t := Step(s, RemoveFails(c, id));
    OneLessPending(s, t, c, id);
    assert forall i :: 0 <= i < |s.waiting| ==> (s.waiting[i] in Pending(t) <==> s.waiting[i] in Pending(s));
  }

  lemma RemoveKeepsNewest(s: State, c: CallId, id: RecordId, n: nat)
    requires KeepsNewest(s, n) && Enabled(s, RemoveReplies(c, id))
    ensures KeepsNewest(Step(s, RemoveReplies(c, id)), n)
    ensures KeepsLimit(s, n) ==> KeepsLimit(Step(s, RemoveReplies(c, id)), n)
  {
    var t := Step(s, RemoveReplies(c, id));
    OneLessPending(s, t, c, id);
    WithoutRemoves(s.waiting, id);
    WithoutKeepsNewest(s.waiting, s.log, Pending(s), Pending(t), id, n);
  }

  lemma {:induction false} RunKeepsNewest(s: State, ops: seq<Op>, n: nat) returns (m: nat)
    requires KeepsNewest(s, n) && CleanRun(s, ops)
    ensures KeepsNewest(Run(s, ops), m)
    ensures FreshRun(s, ops) && KeepsLimit(s, n) ==> KeepsLimit(Run(s, ops), m)
    decreases |ops|
  {
    m := n;
    if ops != [] {
      m := StepKeepsNewest(s, ops[0], n);
      m := RunKeepsNewest(Step(s, ops[0]), ops[1..], m);
    }
  }

  // ------------------------------------------------------------ over all runs

  lemma StartKeepsNewest(s: State)
    requires Start(s)
    ensures KeepsNewest(s, |s.waiting|)
  {
  }

  lemma NothingPendingHoldsASuffix(w: seq<RecordId>, log: seq<RecordId>, n: nat)
    requires NewestHeld(w, log, {}, n)
    ensures n == |w| <= |log| && w == Last(log, |w|)
  {
    var none: set<RecordId> := {};
    if w != [] {
      assert w[0] in none <==> 0 < |w| - n;
    }
    assert Last(w, |w|) == w;
  }

  /**
   Once no fetched record is waiting to be removed, the survivors of a run without an add under
   a pending removal of its id, and without a failed removal that spares a record, are a suffix
   of insertion order: nothing older survives something newer that was evicted.
   */
  lemma SurvivorsAreASuffix(s: State, ops: seq<Op>)
    requires Start(s) && CleanRun(s, ops) && Pending(Run(s, ops)) == {}
    ensures var t := Run(s, ops);
            |t.waiting| <= |t.log| && t.waiting == t.log[|t.log| - |t.waiting|..]
  {
    StartKeepsNewest(s);
    var n := RunKeepsNewest(s, ops, |s.waiting|);
    NothingPendingHoldsASuffix(Run(s, ops).waiting, Run(s, ops).log, n);
  }

  /**
   If moreover no fetch acts on a stale count and nothing fails, then once all calls have
   settled the list is exactly the newest `maxEntries` records ever inserted.
   */
  lemma SurvivorsAreTheNewest(s: State, ops: seq<Op>)
    requires Start(s) && CleanRun(s, ops) && FreshRun(s, ops)
    requires Run(s, ops).calls == map[] && Failures(Run(s, ops)) == 0
    ensures Run(s, ops).waiting == Last(Run(s, ops).log, s.maxEntries)
  {
    StartKeepsNewest(s);
    var n := RunKeepsNewest(s, ops, |s.waiting|);
    var t := Run(s, ops);
    assert Pending(t) == {};
    NothingPendingHoldsASuffix(t.waiting, t.log, n);
    StartIsBounded(s);
    RunKeepsSizeInvariant(s, ops);
    SizeBound(s, ops);
  }

  // ------------------------------------------------------- exactly when it fails

  lemma NewestIsUnique(w: seq<RecordId>, log: seq<RecordId>, pending: set<RecordId>, m: nat, n: nat)
    requires NewestHeld(w, log, pending, m) && NewestHeld(w, log, pending, n)
    ensures m == n
  {
    var i := |w| - (if m < n then n else m);
    if i < |w| {
      assert w[i] in pending <==> i < |w| - m;
      assert w[i] in pending <==> i < |w| - n;
    }
  }

  /**
   An add keeps recency exactly when it is clean, or when every held record is pending removal
   anyway. So re-adding an id that a pending removal names is the failing case.
   */
  lemma AddKeepsRecentIff(s: State, c: CallId)
    requires Recent(s) && Enabled(s, AddReplies(c))
    ensures Recent(Step(s, AddReplies(c)))
       <==> CleanAdd(s, s.calls[c].id) || Elements(s.waiting) <= Pending(s)
  {
    var n :| KeepsNewest(s, n);
    var id := s.calls[c].id;
    var t := Step(s, AddReplies(c));
    PendingUnchanged(s, t);
    if CleanAdd(s, id) {
      var m := AddKeepsNewest(s, AddReplies(c), n);
    } else {
      assert t.waiting[|t.waiting| - 1] == id;
      if Elements(s.waiting) <= Pending(s) {
        assert KeepsNewest(t, 0);
      } else {
        var i :| 0 <= i < |s.waiting| && s.waiting[i] !in Pending(s);
        assert t.waiting[i] == s.waiting[i];
      }
    }
  }

  /** The record spared is the newest doomed one, and the last one logged before the safe ones. */
  predicate SparesTheNext(s: State, id: RecordId, n: nat) {
    n < |s.waiting| && n < |s.log| && s.waiting[|s.waiting| - n - 1] == s.log[|s.log| - n - 1] == id
  }

  lemma LastGrows(w: seq<RecordId>, log: seq<RecordId>, n: nat)
    requires n < |w| && n < |log| && Last(w, n) == Last(log, n) && w[|w| - n - 1] == log[|log| - n - 1]
    ensures Last(w, n + 1) == Last(log, n + 1)
  {
    assert Last(w, n + 1) == [w[|w| - n - 1]] + Last(w, n);
    assert Last(log, n + 1) == [log[|log| - n - 1]] + Last(log, n);
  }

  lemma SparingTheNextKeepsNewest(s: State, t: State, id: RecordId, n: nat)
    requires KeepsNewest(s, n) && SparesTheNext(s, id, n)
    requires t.waiting == s.waiting && t.log == s.log && Pending(t) == Pending(s) - {id}
    ensures KeepsNewest(t, n + 1)
  {
    LastGrows(s.waiting, s.log, n);
    assert forall i :: 0 <= i < |s.waiting| ==>
        (s.waiting[i] in Pending(t) <==> s.waiting[i] in Pending(s) && i != |s.waiting| - n - 1);
  }

  /** A spared record among the safe ones is the oldest of them. */
  lemma SparedIsNewestDoomed(s: State, t: State, id: RecordId, k: nat, n: nat, m: nat)
    requires KeepsNewest(s, n) && KeepsNewest(t, m)
    requires t.waiting == s.waiting && t.log == s.log && Pending(t) == Pending(s) - {id}
    requires k < |s.waiting| - n && s.waiting[k] == id
    ensures SparesTheNext(s, id, n)
  {
    var w := s.waiting;
    var i, j := |w| - m, |w| - n - 1;
    assert w[k] !in Pending(t) && i <= k <= j;
    assert w[j] in Pending(t) <==> j != k;
    assert w[i] in Pending(t) <==> i != k;
    assert i == j && Last(w, m)[0] == w[i] && Last(s.log, m)[0] == s.log[|s.log| - m];
  }

  /** A held record that no call will remove any more, where the newest `n` were safe before. */
  lemma SparedIsRecentIff(s: State, t: State, id: RecordId, n: nat)
    requires KeepsNewest(s, n) && id in s.waiting && id in Pending(s)
    requires t.waiting == s.waiting && t.log == s.log && Pending(t) == Pending(s) - {id}
    ensures Recent(t) <==> SparesTheNext(s, id, n)
  {
    var k :| 0 <= k < |s.waiting| && s.waiting[k] == id;
    assert k < |s.waiting| - n;
    if SparesTheNext(s, id, n) {
      SparingTheNextKeepsNewest(s, t, id, n);
    }
    forall m | KeepsNewest(t, m)
      ensures SparesTheNext(s, id, n)
    {
      SparedIsNewestDoomed(s, t, id, k, n, m);
    }
  }

  /**
   With the newest `n` records safe, a failed removal keeps recency exactly when it is clean or
   the record it spares joins them, being the next older one. A spared record with a doomed or
   evicted one between it and the safe ones is the failing case.
   */
  lemma RemoveFailureKeepsRecentIff(s: State, c: CallId, id: RecordId, n: nat)
    requires KeepsNewest(s, n) && Enabled(s, RemoveFails(c, id))
    ensures Recent(Step(s, RemoveFails(c, id)))
       <==> CleanRemoveFailure(s, c, id) || SparesTheNext(s, id, n)
  {
    if CleanRemoveFailure(s, c, id) {
      RemoveFailureKeepsNewest(s, c, id, n);
    } else {
      var t := Step(s, RemoveFails(c, id));
      OneLessPending(s, t, c, id);
      assert id in Pending(s) && Pending(t) == Pending(s) - {id};
      SparedIsRecentIff(s, t, id, n);
    }
  }

  /** A fetch leaves at least the limit of safe newest records exactly when its count is not stale. */
  lemma FetchKeepsLimitIffFresh(s: State, c: CallId, n: nat)
    requires KeepsNewest(s, n) && n >= s.maxEntries > 0
    requires Enabled(s, FetchReplies(c)) && s.calls[c].excess > 0
    ensures (exists m :: m >= s.maxEntries && KeepsNewest(Step(s, FetchReplies(c)), m))
       <==> Fresh(s, FetchReplies(c))
  {
    var kept := FetchKeepsNewest(s, c, n);
    var t := Step(s, FetchReplies(c));
    forall m | KeepsNewest(t, m)
      ensures m == kept
    {
      NewestIsUnique(t.waiting, t.log, Pending(t), m, kept);
    }
  }
}
