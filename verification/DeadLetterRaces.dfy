/**
 Runs in which the dead-letter list loses the records it is meant to keep. In two of them no
 Redis operation fails: one is clean and not fresh, the other fresh and not clean, so neither
 condition of `DeadLetterRecency` can be dropped. In the third only a removal fails.
 */
module DeadLetterRaces {
  import opened Wrappers
  import opened Sequences
  import opened DeadLetterProtocol
  import opened DeadLetterRecency

  lemma {:induction false} RunThen(s: State, ops: seq<Op>, op: Op)
    ensures Run(s, ops + [op]) == Step(Run(s, ops), op)
    decreases |ops|
  {
    if ops == [] {
      assert Run(s, [op]) == Run(Step(s, op), []);
    } else {
      assert (ops + [op])[1..] == ops[1..] + [op];
      RunThen(Step(s, ops[0]), ops[1..], op);
    }
  }

  /** The condition a run keeps to; it is left free to break the other one. */
  datatype Discipline = IsClean | IsFresh

  ghost predicate Obeys(d: Discipline, s: State, ops: seq<Op>) {
    if d.IsClean? then CleanRun(s, ops) else FreshRun(s, ops)
  }

  ghost predicate Allows(d: Discipline, s: State, op: Op) {
    if d.IsClean? then Clean(s, op) else Fresh(s, op)
  }

  lemma {:induction false} ObeysThen(d: Discipline, s: State, ops: seq<Op>, op: Op)
    requires Obeys(d, s, ops) && Allows(d, Run(s, ops), op)
    ensures Obeys(d, s, ops + [op])
    decreases |ops|
  {
    if ops == [] {
      assert ops + [op] == [op];
      assert CleanRun(Step(s, op), []) && FreshRun(Step(s, op), []);
    } else {
      assert (ops + [op])[1..] == ops[1..] + [op];
      ObeysThen(d, Step(s, ops[0]), ops[1..], op);
    }
  }

  ghost predicate Reaches(d: Discipline, s: State, t: State) {
    exists ops :: Run(s, ops) == t && Obeys(d, s, ops)
  }

  lemma Next(d: Discipline, s: State, t: State, op: Op)
    requires Reaches(d, s, t) && Allows(d, t, op)
    ensures Reaches(d, s, Step(t, op))
  {
    var ops :| Run(s, ops) == t && Obeys(d, s, ops);
    RunThen(s, ops, op);
    ObeysThen(d, s, ops, op);
  }

  /** A call begins and its record lands. */
  function Arrived(t: State, c: CallId, id: RecordId): State {
    t.(waiting := t.waiting + [id],
       log := t.log + [id],
       calls := t.calls[c := Counting],
       deadLettered := t.deadLettered + 1)
  }

  lemma Arrives(d: Discipline, s: State, t: State, c: CallId, id: RecordId)
    requires Reaches(d, s, t) && c !in t.calls && id !in t.waiting
    requires d.IsClean? ==> id !in Pending(t)
    ensures Reaches(d, s, Arrived(t, c, id))
  {
    Next(d, s, t, Begin(c, Some(id)));
    var u := Step(t, Begin(c, Some(id)));
    PendingUnchanged(t, u);
    Next(d, s, u, AddReplies(c));
    assert u.calls[c := Counting] == t.calls[c := Counting];
  }

  lemma Counts(d: Discipline, s: State, t: State, c: CallId)
    requires Reaches(d, s, t) && c in t.calls && t.calls[c].Counting?
    ensures Reaches(d, s, AtPhase(t, c, AfterCount(|t.waiting|, t.maxEntries)))
  {
    Next(d, s, t, CountReplies(c));
  }

  lemma Fetches(d: Discipline, s: State, t: State, c: CallId, oldest: seq<RecordId>)
    requires Reaches(d, s, t) && c in t.calls && t.calls[c].Fetching? && oldest == First(t.waiting, t.calls[c].excess)
    requires d.IsFresh? ==> |t.waiting| >= t.maxEntries + t.calls[c].excess
    ensures Reaches(d, s, AtPhase(t, c, Evicting(Elements(oldest))))
  {
    Next(d, s, t, FetchReplies(c));
  }

  function Evicted(t: State, c: CallId, oldest: seq<RecordId>): State
    decreases |oldest|
  {
    if oldest == [] then t.(calls := t.calls - {c})
    else Evicted(t.(waiting := Without(t.waiting, oldest[0])), c, oldest[1..])
  }

  /** A call removes, in order, all that it fetched, and settles. */
  lemma {:induction false} Evicts(d: Discipline, s: State, t: State, c: CallId, oldest: seq<RecordId>)
    requires Reaches(d, s, t) && c in t.calls && t.calls[c] == Evicting(Elements(oldest)) && Distinct(oldest)
    ensures Reaches(d, s, Evicted(t, c, oldest))
    decreases |oldest|
  {
    if oldest == [] {
      assert Elements(oldest) == {};
      Next(d, s, t, Settle(c));
    } else {
      var rest := oldest[1..];
      assert oldest == [oldest[0]] + rest;
      Next(d, s, t, RemoveReplies(c, oldest[0]));
      var u := Step(t, RemoveReplies(c, oldest[0]));
      assert Elements(oldest) - {oldest[0]} == Elements(rest);
      Evicts(d, s, u, c, rest);
      EvictedDropsCall(u, t.(waiting := u.waiting), c, rest);
    }
  }

  lemma {:induction false} EvictedDropsCall(t: State, u: State, c: CallId, oldest: seq<RecordId>)
    requires t.(calls := t.calls - {c}) == u.(calls := u.calls - {c})
    ensures Evicted(t, c, oldest) == Evicted(u, c, oldest)
    decreases |oldest|
  {
    if oldest != [] {
      var w := Without(t.waiting, oldest[0]);
      EvictedDropsCall(t.(waiting := w), u.(waiting := w), c, oldest[1..]);
    }
  }

  lemma EvictsOne(d: Discipline, s: State, t: State, c: CallId, a: RecordId)
    requires Reaches(d, s, t) && c in t.calls && t.calls[c] == Evicting(Elements([a]))
    ensures Reaches(d, s, t.(waiting := Without(t.waiting, a), calls := t.calls - {c}))
  {
    Evicts(d, s, t, c, [a]);
    assert Evicted(t, c, [a]) == Evicted(t.(waiting := Without(t.waiting, a)), c, []);
  }

  lemma EvictsTwo(d: Discipline, s: State, t: State, c: CallId, a: RecordId, b: RecordId)
    requires Reaches(d, s, t) && c in t.calls && t.calls[c] == Evicting(Elements([a, b])) && a != b
    ensures Reaches(d, s, t.(waiting := Without(Without(t.waiting, a), b), calls := t.calls - {c}))
  {
    Evicts(d, s, t, c, [a, b]);
    var u := t.(waiting := Without(t.waiting, a));
    assert [a, b][1..] == [b];
    assert Evicted(t, c, [a, b]) == Evicted(u, c, [b]) == Evicted(u.(waiting := Without(u.waiting, b)), c, []);
  }

  predicate SettledWithoutFailure(s: State) {
    s.calls == map[] && Failures(s) == 0
  }

  /** A settled run without failure that does not hold the newest records was not both clean and fresh. */
  lemma LosingRunBreaksACondition(s: State, ops: seq<Op>)
    requires Start(s) && SettledWithoutFailure(Run(s, ops))
    requires Run(s, ops).waiting != Last(Run(s, ops).log, s.maxEntries)
    ensures !(CleanRun(s, ops) && FreshRun(s, ops))
  {
    if CleanRun(s, ops) && FreshRun(s, ops) {
      SurvivorsAreTheNewest(s, ops);
    }
  }

  /** A state holding one record, at a limit of one. */
  function Holding(x: RecordId): State {
    State(1, [x], [x], map[], 0, 0, 0)
  }

  lemma ReachesItself(d: Discipline, s: State)
    ensures Reaches(d, s, s)
  {
    assert Run(s, []) == s;
  }

  /**
   Two calls add a record each and both count three. The second fetch acts on its count after
   the first call has already evicted down to the limit, and so evicts the newest record too.
   */
  lemma StaleCountEvictsEverything(x: RecordId, y: RecordId, z: RecordId)
    requires x != y && x != z && y != z
    ensures exists ops ::
              && CleanRun(Holding(x), ops) && !FreshRun(Holding(x), ops)
              && var t := Run(Holding(x), ops);
              SettledWithoutFailure(t) && t.waiting == [] && t.log == [x, y, z]
  {
    var d, s := IsClean, Holding(x);
    ReachesItself(d, s);
    Arrives(d, s, s, 1, y);
    Arrives(d, s, Arrived(s, 1, y), 2, z);
    var t := State(1, [x, y, z], [x, y, z], map[1 := Counting, 2 := Counting], 2, 0, 0);
    assert Arrived(Arrived(s, 1, y), 2, z) == t;
    Counts(d, s, t, 1);
    t := t.(calls := map[1 := Fetching(2), 2 := Counting]);
    Counts(d, s, t, 2);
    t := t.(calls := map[1 := Fetching(2), 2 := Fetching(2)]);
    Fetches(d, s, t, 1, [x, y]);
    t := t.(calls := map[1 := Evicting(Elements([x, y])), 2 := Fetching(2)]);
    EvictsTwo(d, s, t, 1, x, y);
    assert t.calls - {1} == map[2 := Fetching(2)];
    assert Without(Without([x, y, z], x), y) == [z];
    t := t.(waiting := [z], calls := map[2 := Fetching(2)]);
    Fetches(d, s, t, 2, [z]);
    t := t.(calls := map[2 := Evicting(Elements([z]))]);
    EvictsOne(d, s, t, 2, z);
    assert t.calls - {2} == map[];
    t := t.(waiting := [], calls := map[]);
    var ops :| Run(s, ops) == t && Obeys(d, s, ops);
    LosingRunBreaksACondition(s, ops);
  }

  /** Two overlapping evictions of `x`: one call is about to remove it, another both `x` and `y`. */
  function Overlap(x: RecordId, y: RecordId, z: RecordId): State {
    State(1, [x, y, z], [x, y, z], map[1 := Evicting(Elements([x])), 2 := Evicting(Elements([x, y]))], 2, 0, 0)
  }

  /** The first of them: `x` is fetched for eviction once `y` has arrived. */
  function OneEviction(x: RecordId, y: RecordId): State {
    State(1, [x, y], [x, y], map[1 := Evicting(Elements([x]))], 1, 0, 0)
  }

  lemma OneEvictionIsReached(x: RecordId, y: RecordId)
    requires x != y
    ensures Reaches(IsFresh, Holding(x), OneEviction(x, y))
  {
    var d, s := IsFresh, Holding(x);
    ReachesItself(d, s);
    Arrives(d, s, s, 1, y);
    var t := State(1, [x, y], [x, y], map[1 := Counting], 1, 0, 0);
    assert Arrived(s, 1, y) == t;
    Counts(d, s, t, 1);
    t := t.(calls := map[1 := Fetching(1)]);
    Fetches(d, s, t, 1, [x]);
  }

  lemma OverlapIsReached(x: RecordId, y: RecordId, z: RecordId)
    requires x != y && x != z && y != z
    ensures Reaches(IsFresh, Holding(x), Overlap(x, y, z))
  {
    var d, s, t := IsFresh, Holding(x), OneEviction(x, y);
    OneEvictionIsReached(x, y);
    Arrives(d, s, t, 2, z);
    t := State(1, [x, y, z], [x, y, z], map[1 := Evicting(Elements([x])), 2 := Counting], 2, 0, 0);
    Counts(d, s, t, 2);
    t := t.(calls := map[1 := Evicting(Elements([x])), 2 := Fetching(2)]);
    Fetches(d, s, t, 2, [x, y]);
  }

  /** The first eviction is done, and `x` has been recorded again under the second. */
  function Readded(x: RecordId, y: RecordId, z: RecordId): State {
    State(1, [y, z, x], [x, y, z, x], map[2 := Evicting(Elements([x, y])), 3 := Counting], 3, 0, 0)
  }

  lemma ReaddedIsReached(x: RecordId, y: RecordId, z: RecordId)
    requires x != y && x != z && y != z
    ensures Reaches(IsFresh, Holding(x), Readded(x, y, z))
  {
    var d, s, t := IsFresh, Holding(x), Overlap(x, y, z);
    OverlapIsReached(x, y, z);
    EvictsOne(d, s, t, 1, x);
    assert t.calls - {1} == map[2 := Evicting(Elements([x, y]))];
    assert Without([x, y, z], x) == [y, z];
    t := t.(waiting := [y, z], calls := map[2 := Evicting(Elements([x, y]))]);
    Arrives(d, s, t, 3, x);
  }

  /**
   A failure recorded again while an older eviction of it is outstanding: the eviction, being
   by id, removes the new record, and an older one survives it.
   */
  lemma ReaddedRecordIsEvicted(x: RecordId, y: RecordId, z: RecordId)
    requires x != y && x != z && y != z
    ensures exists ops ::
              && FreshRun(Holding(x), ops) && !CleanRun(Holding(x), ops)
              && var t := Run(Holding(x), ops);
              SettledWithoutFailure(t) && t.log == [x, y, z, x] && t.waiting == [z]
  {
    var d, s, t := IsFresh, Holding(x), Readded(x, y, z);
    ReaddedIsReached(x, y, z);
    EvictsTwo(d, s, t, 2, x, y);
    assert t.calls - {2} == map[3 := Counting];
    assert [y, z, x][1..] == [z, x] && Without([z, x], x) == [z];
    assert Without([y, z, x], x) == [y, z];
    t := t.(waiting := [z], calls := map[3 := Counting]);
    Counts(d, s, t, 3);
    t := t.(calls := map[3 := Finishing]);
    Next(d, s, t, Settle(3));
    assert t.calls - {3} == map[];
    t := t.(calls := map[]);
    var ops :| Run(s, ops) == t && Obeys(d, s, ops);
    LosingRunBreaksACondition(s, ops);
  }

  /** A removal that fails twice, with a call of its own each time; the second call is about to remove `y`. */
  function Spared(x: RecordId, y: RecordId, z: RecordId): State {
    State(1, [x, y, z], [x, y, z], map[2 := Evicting({y})], 2, 0, 2)
  }

  /** The first call fails to remove `x`, and settles. */
  function SparedOnce(x: RecordId, y: RecordId): State {
    State(1, [x, y], [x, y], map[], 1, 0, 1)
  }

  lemma SparedOnceIsReached(x: RecordId, y: RecordId)
    requires x != y
    ensures Reaches(IsFresh, Holding(x), SparedOnce(x, y))
  {
    var d, s, t := IsFresh, Holding(x), OneEviction(x, y);
    OneEvictionIsReached(x, y);
    Next(d, s, t, RemoveFails(1, x));
    assert Elements([x]) - {x} == {};
    t := t.(calls := map[1 := Evicting({})], evictErrors := 1);
    Next(d, s, t, Settle(1));
    assert t.calls - {1} == map[];
  }

  /** The second call has fetched both older records. */
  function Refetched(x: RecordId, y: RecordId, z: RecordId): State {
    State(1, [x, y, z], [x, y, z], map[2 := Evicting(Elements([x, y]))], 2, 0, 1)
  }

  lemma RefetchedIsReached(x: RecordId, y: RecordId, z: RecordId)
    requires x != y && x != z && y != z
    ensures Reaches(IsFresh, Holding(x), Refetched(x, y, z))
  {
    var d, s, t := IsFresh, Holding(x), SparedOnce(x, y);
    SparedOnceIsReached(x, y);
    Arrives(d, s, t, 2, z);
    t := State(1, [x, y, z], [x, y, z], map[2 := Counting], 2, 0, 1);
    Counts(d, s, t, 2);
    t := t.(calls := map[2 := Fetching(2)]);
    Fetches(d, s, t, 2, [x, y]);
  }

  lemma SparedIsReached(x: RecordId, y: RecordId, z: RecordId)
    requires x != y && x != z && y != z
    ensures Reaches(IsFresh, Holding(x), Spared(x, y, z))
  {
    var d, s, t := IsFresh, Holding(x), Refetched(x, y, z);
    RefetchedIsReached(x, y, z);
    Next(d, s, t, RemoveFails(2, x));
    assert Elements([x, y]) - {x} == {y};
  }

  /** Both calls have settled, the removal of `x` having failed each time: `x` is left, and the newer `y` is gone. */
  lemma FailedRemovalKeepsTheOldest(x: RecordId, y: RecordId, z: RecordId)
    requires x != y && x != z && y != z
    ensures exists ops ::
              && FreshRun(Holding(x), ops) && !CleanRun(Holding(x), ops)
              && var t := Run(Holding(x), ops);
              t.calls == map[] && t.writeFailures == 0 && t.log == [x, y, z] && t.waiting == [x, z]
  {
    var d, s, t := IsFresh, Holding(x), Spared(x, y, z);
    SparedIsReached(x, y, z);
    Next(d, s, t, RemoveReplies(2, y));
    assert [x, y, z][1..] == [y, z] && Without([y, z], y) == [z];
    assert Without([x, y, z], y) == [x, z];
    assert {y} - {y} == {};
    t := t.(waiting := [x, z], calls := map[2 := Evicting({})]);
    Next(d, s, t, Settle(2));
    assert t.calls - {2} == map[];
    t := t.(calls := map[]);
    var ops :| Run(s, ops) == t && Obeys(d, s, ops);
    assert Pending(t) == {};
    assert [x, y, z][1..] == [y, z] && [x, z][0] != [y, z][0];
    if CleanRun(s, ops) {
      SurvivorsAreASuffix(s, ops);
    }
  }
}
