/**
 What one dead-letter call does in a world of others: where its record goes, and that a call that
 nothing overtakes is a sliding window over the list, whatever phases other calls are in.
 */
module DeadLetterCalls {
  import opened Wrappers
  import opened Sequences
  import opened DeadLetterProtocol

  // ------------------------------------------------------------ a single record

  /** Once its add has replied, the record is in the list: where it was, or else at the end of it and of the log. */
  lemma AddLands(s: State, c: CallId, id: RecordId)
    requires c in s.calls && s.calls[c] == Adding(id)
    ensures var t := Step(s, AddReplies(c));
            && id in t.waiting
            && (id in s.waiting ==> t.waiting == s.waiting && t.log == s.log)
            && (id !in s.waiting ==> t.waiting == s.waiting + [id] && t.log == s.log + [id])
            && t.calls == s.calls[c := Counting] && t.deadLettered == s.deadLettered + 1
  {
  }

  /** A reply reaching one call moves no other. */
  lemma OtherCallsAreUntouched(s: State, op: Op, d: CallId)
    requires d != op.c
    ensures var t := Step(s, op); (d in t.calls <==> d in s.calls) && (d in s.calls ==> t.calls[d] == s.calls[d])
  {
  }

  /** A failed add, count or fetch ends the call as a counted failure; a failed removal leaves its record. */
  lemma FailuresLeaveTheList(s: State, c: CallId, id: RecordId)
    requires c in s.calls
    ensures s.calls[c].Counting? || s.calls[c].Fetching? ==>
              var t := Step(s, ReadFails(c));
              t.waiting == s.waiting && t.calls[c] == Finishing && t.writeFailures == s.writeFailures + 1
    ensures s.calls[c].Evicting? && id in s.calls[c].victims ==>
              var t := Step(s, RemoveFails(c, id));
              && t.waiting == s.waiting && t.calls[c] == Evicting(s.calls[c].victims - {id})
              && t.evictErrors == s.evictErrors + 1 && t.writeFailures == s.writeFailures
    ensures s.calls[c].Adding? ==>
              var t := Step(s, AddFails(c, false));
              t.waiting == s.waiting && t.calls[c] == Finishing && t.writeFailures == s.writeFailures + 1
  {
  }

  lemma {:induction false} WithoutOthers(w: seq<RecordId>, x: RecordId, y: RecordId)
    requires x in w && x != y
    ensures x in Without(w, y)
  {
    if w[0] != y && w[0] != x {
      assert w == [w[0]] + w[1..];
      WithoutOthers(w[1..], x, y);
    } else if w[0] == y {
      assert w == [w[0]] + w[1..];
    }
  }

  /** A record that is held stays, in every run in which no removal of its own id replies. */
  lemma {:induction false} RecordStaysUntilRemoved(s: State, ops: seq<Op>, id: RecordId)
    requires id in s.waiting && forall op :: op in ops ==> !(op.RemoveReplies? && op.id == id)
    ensures id in Run(s, ops).waiting
    decreases |ops|
  {
    if ops != [] {
      if ops[0].RemoveReplies? {
        WithoutOthers(s.waiting, id, ops[0].id);
      }
      RecordStaysUntilRemoved(Step(s, ops[0]), ops[1..], id);
    }
  }

  /** The list holds nothing that was not put there: what it held at first, and what is logged. */
  lemma {:induction false} HeldIsLogged(s: State, ops: seq<Op>)
    requires forall x :: x in s.waiting ==> x in s.log
    ensures s.log <= Run(s, ops).log && forall x :: x in Run(s, ops).waiting ==> x in Run(s, ops).log
    decreases |ops|
  {
    if ops != [] {
      if ops[0].RemoveReplies? {
        WithoutKeepsOnlyHeld(s.waiting, ops[0].id);
      }
      HeldIsLogged(Step(s, ops[0]), ops[1..]);
    }
  }

  lemma {:induction false} WithoutKeepsOnlyHeld(w: seq<RecordId>, x: RecordId)
    ensures forall y :: y in Without(w, x) ==> y in w
  {
    if w != [] {
      assert w == [w[0]] + w[1..];
      WithoutKeepsOnlyHeld(w[1..], x);
    }
  }

  // ------------------------------------------------------- removals in any order

  /** The elements of `w` that are not in `gone`, in order. */
  function Keep(w: seq<RecordId>, gone: set<RecordId>): seq<RecordId> {
    if w == [] then [] else (if w[0] in gone then [] else [w[0]]) + Keep(w[1..], gone)
  }

  lemma {:induction false} KeepAfterWithout(w: seq<RecordId>, x: RecordId, gone: set<RecordId>)
    requires Distinct(w)
    ensures Keep(Without(w, x), gone) == Keep(w, gone + {x})
  {
    if w != [] {
      if w[0] == x {
        KeepIrrelevant(w[1..], x, gone);
      } else {
        var rest := Without(w[1..], x);
        assert Without(w, x) == [w[0]] + rest && ([w[0]] + rest)[1..] == rest;
        KeepAfterWithout(w[1..], x, gone);
      }
    }
  }

  lemma {:induction false} KeepIrrelevant(w: seq<RecordId>, x: RecordId, gone: set<RecordId>)
    requires x !in w
    ensures Keep(w, gone) == Keep(w, gone + {x})
  {
    if w != [] {
      KeepIrrelevant(w[1..], x, gone);
    }
  }

  lemma {:induction false} KeepDropsPrefix(w: seq<RecordId>, k: nat)
    requires Distinct(w) && k <= |w|
    ensures Keep(w, Elements(w[..k])) == w[k..]
    decreases |w|
  {
    if w != [] {
      if k == 0 {
        KeepDropsPrefix(w[1..], 0);
        assert w[1..][..0] == w[..0];
      } else {
        assert w[..k] == [w[0]] + w[1..][..k - 1];
        assert Elements(w[..k]) == Elements(w[1..][..k - 1]) + {w[0]};
        KeepDropsPrefix(w[1..], k - 1);
        KeepIrrelevant(w[1..], w[0], Elements(w[1..][..k - 1]));
      }
    }
  }

  // ------------------------------------------------------------ a whole call

  lemma {:induction false} RunBoth(s: State, first: seq<Op>, second: seq<Op>)
    ensures Run(s, first + second) == Run(Run(s, first), second)
    decreases |first|
  {
    if first == [] {
      assert first + second == second;
    } else {
      assert (first + second)[1..] == first[1..] + second;
      RunBoth(Step(s, first[0]), first[1..], second);
    }
  }

  function Removals(c: CallId, order: seq<RecordId>): seq<Op> {
    if order == [] then [] else [RemoveReplies(c, order[0])] + Removals(c, order[1..])
  }

  /** The removals of a call reply in some order, with nothing in between. */
  lemma {:induction false} RemovalsRun(s: State, c: CallId, order: seq<RecordId>)
    requires Distinct(s.waiting) && Distinct(order)
    requires c in s.calls && s.calls[c] == Evicting(Elements(order))
    ensures Run(s, Removals(c, order))
         == s.(waiting := Keep(s.waiting, Elements(order)), calls := s.calls[c := Evicting({})])
    decreases |order|
  {
    if order == [] {
      assert Elements(order) == {};
      KeepDropsPrefix(s.waiting, 0);
      assert s.waiting[..0] == order;
      assert s.calls[c := Evicting({})] == s.calls;
    } else {
      var rest := order[1..];
      assert order == [order[0]] + rest;
      assert Elements(order) == Elements(rest) + {order[0]};
      var t := Step(s, RemoveReplies(c, order[0]));
      assert Elements(order) - {order[0]} == Elements(rest);
      WithoutRemoves(s.waiting, order[0]);
      assert Removals(c, order)[1..] == Removals(c, rest);
      RemovalsRun(t, c, rest);
      KeepAfterWithout(s.waiting, order[0], Elements(rest));
      assert t.calls[c := Evicting({})] == s.calls[c := Evicting({})];
    }
  }

  /** The list with the record in it. */
  function Added(s: State, id: RecordId): seq<RecordId> {
    if id in s.waiting then s.waiting else s.waiting + [id]
  }

  /** What a call evicts: the oldest records beyond the limit, its own record counted. */
  function Excess(s: State, id: RecordId): seq<RecordId> {
    if |Added(s, id)| <= s.maxEntries then [] else Added(s, id)[..|Added(s, id)| - s.maxEntries]
  }

  function Logged(s: State, id: RecordId): State {
    s.(waiting := Added(s, id),
       log := if id in s.waiting then s.log else s.log + [id],
       deadLettered := s.deadLettered + 1)
  }

  lemma CallUpToCount(s: State, c: CallId, id: RecordId)
    requires c !in s.calls
    ensures Run(s, [Begin(c, Some(id)), AddReplies(c)]) == Logged(s, id).(calls := s.calls[c := Counting])
  {
    var begun := Step(s, Begin(c, Some(id)));
    assert begun.calls == s.calls[c := Adding(id)];
    assert Run(s, [Begin(c, Some(id)), AddReplies(c)]) == Run(begun, [AddReplies(c)]);
    assert Run(begun, [AddReplies(c)]) == Run(Step(begun, AddReplies(c)), []);
    assert begun.calls[c := Counting] == s.calls[c := Counting];
  }

  /** The count and the fetch of a call that waits for its count: it is done, or it evicts the excess. */
  lemma CountAndFetch(s: State, c: CallId)
    requires c in s.calls && s.calls[c] == Counting
    ensures Run(s, [CountReplies(c), FetchReplies(c)])
         == AtPhase(s, c, if |s.waiting| <= s.maxEntries then Finishing
                          else Evicting(Elements(s.waiting[..|s.waiting| - s.maxEntries])))
  {
    var counted := Step(s, CountReplies(c));
    assert Run(s, [CountReplies(c), FetchReplies(c)]) == Run(counted, [FetchReplies(c)]);
    assert Run(counted, [FetchReplies(c)]) == Run(Step(counted, FetchReplies(c)), []);
    if |s.waiting| > s.maxEntries {
      assert First(s.waiting, |s.waiting| - s.maxEntries) == s.waiting[..|s.waiting| - s.maxEntries];
    }
  }

  lemma RemovalsAndSettlement(s: State, c: CallId, order: seq<RecordId>)
    requires Distinct(s.waiting) && Distinct(order) && c in s.calls
    requires s.calls[c] == Evicting(Elements(order)) || (s.calls[c] == Finishing && order == [])
    ensures Run(s, Removals(c, order) + [Settle(c)])
         == s.(waiting := Keep(s.waiting, Elements(order)), calls := s.calls - {c})
  {
    RunBoth(s, Removals(c, order), [Settle(c)]);
    if order == [] {
      assert Elements(order) == {};
      KeepDropsPrefix(s.waiting, 0);
      assert s.waiting[..0] == order;
    } else {
      RemovalsRun(s, c, order);
    }
    var t := Run(s, Removals(c, order));
    assert Run(t, [Settle(c)]) == Run(Step(t, Settle(c)), []);
    assert t.calls - {c} == s.calls - {c};
  }

  /** What is left is the last records up to the limit, in whatever order the excess went. */
  lemma ExcessLeavesTheLast(s: State, id: RecordId, order: seq<RecordId>)
    requires Distinct(s.waiting) && Elements(order) == Elements(Excess(s, id))
    ensures Distinct(Added(s, id)) && Keep(Added(s, id), Elements(order)) == Last(Added(s, id), s.maxEntries)
  {
    var w := Added(s, id);
    KeepDropsPrefix(w, |Excess(s, id)|);
    assert w[..|Excess(s, id)|] == Excess(s, id);
  }

  /** How a call stands once it has fetched: done, or evicting the excess. */
  function Fetched(s: State, c: CallId, id: RecordId): State {
    Logged(s, id).(calls := s.calls[c :=
      if |Added(s, id)| <= s.maxEntries then Finishing else Evicting(Elements(Excess(s, id)))])
  }

  function UpToFetch(c: CallId, id: RecordId): seq<Op> {
    [Begin(c, Some(id)), AddReplies(c), CountReplies(c), FetchReplies(c)]
  }

  lemma CallUpToFetch(s: State, c: CallId, id: RecordId)
    requires c !in s.calls
    ensures Run(s, UpToFetch(c, id)) == Fetched(s, c, id)
  {
    CallUpToCount(s, c, id);
    var added := Logged(s, id).(calls := s.calls[c := Counting]);
    CountAndFetch(added, c);
    RunBoth(s, [Begin(c, Some(id)), AddReplies(c)], [CountReplies(c), FetchReplies(c)]);
    assert [Begin(c, Some(id)), AddReplies(c)] + [CountReplies(c), FetchReplies(c)] == UpToFetch(c, id);
    var phase := Fetched(s, c, id).calls[c];
    assert s.calls[c := Counting][c := phase] == s.calls[c := phase];
  }

  lemma CallFromFetch(s: State, c: CallId, id: RecordId, order: seq<RecordId>)
    requires Distinct(s.waiting) && c !in s.calls
    requires Distinct(order) && Elements(order) == Elements(Excess(s, id))
    ensures Run(Fetched(s, c, id), Removals(c, order) + [Settle(c)])
         == Logged(s, id).(waiting := Last(Added(s, id), s.maxEntries))
  {
    ExcessLeavesTheLast(s, id, order);
    if |Added(s, id)| <= s.maxEntries {
      NoExcessNoRemovals(s, id, order);
    }
    RemovalsAndSettlement(Fetched(s, c, id), c, order);
    assert Fetched(s, c, id).calls - {c} == s.calls;
  }

  lemma NoExcessNoRemovals(s: State, id: RecordId, order: seq<RecordId>)
    requires Elements(order) == Elements(Excess(s, id)) && |Added(s, id)| <= s.maxEntries && Distinct(order)
    ensures order == []
  {
    CardinalityOfElements(order);
    CardinalityOfElements(Excess(s, id));
  }

  /**
   Whatever other calls are doing, a call that nothing overtakes leaves the last records, up to the
   limit, of the list with its own record appended unless held, in whatever order its removals
   reply, and leaves the other calls as they are.
   */
  lemma UnovertakenCallIsAWindow(s: State, c: CallId, id: RecordId, order: seq<RecordId>)
    requires Distinct(s.waiting) && c !in s.calls
    requires Distinct(order) && Elements(order) == Elements(Excess(s, id))
    ensures var t := Run(s, UpToFetch(c, id) + (Removals(c, order) + [Settle(c)]));
            && t.waiting == Last(if id in s.waiting then s.waiting else s.waiting + [id], s.maxEntries)
            && t.log == (if id in s.waiting then s.log else s.log + [id])
            && t.calls == s.calls && t.deadLettered == s.deadLettered + 1
            && t.writeFailures == s.writeFailures && t.evictErrors == s.evictErrors
  {
    RunBoth(s, UpToFetch(c, id), Removals(c, order) + [Settle(c)]);
    CallUpToFetch(s, c, id);
    CallFromFetch(s, c, id, order);
  }
}
