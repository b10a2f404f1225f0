/**
 Enqueueing with idempotency keys, against a clock.

 The queue library deduplicates: while a key is live an add creates nothing and returns the
 id of the job the key belongs to; a key lives for the TTL given when its job was created.
 */
module Enqueue {
  import opened Wrappers

  const MAX_DELAY_MS: nat := 604_800_000
  const DEFAULT_TTL_MS: nat := 86_400_000
  const MAX_SAFE_INTEGER: int := 9_007_199_254_740_991

  type JobId = nat

  /** A JavaScript number, as far as the delay check tells them apart. */
  datatype Number = NotFinite | Finite(value: real)

  /** What the definition lookup, the payload schema and the queue registry make of a request. */
  datatype Request = Request(
    knownName: bool,
    payloadValid: bool,
    queueRegistered: bool,
    delay: Option<Number>,
    key: Option<string>,
    ttlMs: Option<nat>)

  datatype Rejection = UnknownJob | InvalidPayload | InvalidDelay | QueueNotRegistered

  datatype LiveKey = LiveKey(id: JobId, expiresAt: nat)

  /** `created`, history: for every job, the key it was created under and when, oldest first. */
  datatype State = State(jobs: nat, keys: map<string, LiveKey>, enqueued: nat, created: seq<(Option<string>, nat)>)

  datatype Call = Call(now: nat, request: Request)

  predicate DelayOk(delay: Number) {
    && delay.Finite?
    && delay.value == delay.value.Floor as real
    && -MAX_SAFE_INTEGER <= delay.value.Floor <= MAX_SAFE_INTEGER
    && 0.0 <= delay.value <= MAX_DELAY_MS as real
  }

  function Millis(n: nat): Number {
    Finite(n as real)
  }

  /** The delays accepted are exactly the whole numbers of milliseconds from none to seven days. */
  lemma DelayOkIff(delay: Number)
    ensures DelayOk(delay) <==> exists n: nat :: n <= 7 * 24 * 60 * 60 * 1000 && delay == Millis(n)
  {
    if DelayOk(delay) {
      var n: nat := delay.value.Floor;
      assert n <= MAX_DELAY_MS && delay == Millis(n);
    }
  }

  /** A whole number of milliseconds is accepted exactly within the range. */
  lemma WholeDelayOkIff(n: int)
    ensures DelayOk(Finite(n as real)) <==> 0 <= n <= MAX_DELAY_MS
  {
    assert (n as real).Floor == n;
  }

  function Rejected(r: Request): Option<Rejection> {
    if !r.knownName then Some(UnknownJob)
    else if !r.payloadValid then Some(InvalidPayload)
    else if r.delay.Some? && !DelayOk(r.delay.value) then Some(InvalidDelay)
    else if !r.queueRegistered then Some(QueueNotRegistered)
    else None
  }

  function Ttl(r: Request): nat {
    r.ttlMs.GetOr(DEFAULT_TTL_MS)
  }

  predicate Live(s: State, key: string, now: nat) {
    key in s.keys && now < s.keys[key].expiresAt
  }

  /** The add: the id it returns, and the queue after it. Ids count up from zero. */
  function Add(s: State, now: nat, r: Request): (JobId, State) {
    if r.key.Some? && Live(s, r.key.value, now) then (s.keys[r.key.value].id, s)
    else
      var id := s.jobs;
      (id, s.(jobs := s.jobs + 1,
              keys := if r.key.Some? then s.keys[r.key.value := LiveKey(id, now + Ttl(r))] else s.keys,
              created := s.created + [(r.key, now)]))
  }

  function Step(s: State, call: Call): (Result<JobId, Rejection>, State) {
    match Rejected(call.request)
    case Some(rejection) => (Err(rejection), s)
    case None =>
      var (id, t) := Add(s, call.now, call.request);
      (Ok(id), t.(enqueued := t.enqueued + 1))
  }

  function Run(s: State, calls: seq<Call>): State
    decreases |calls|
  {
    if calls == [] then s else Run(Step(s, calls[0]).1, calls[1..])
  }

  function Initial(): State {
    State(0, map[], 0, [])
  }

  class Queue {
    var jobs: nat
    var keys: map<string, LiveKey>
    var enqueued: nat
    ghost var created: seq<(Option<string>, nat)>

    constructor ()
      ensures View() == Initial()
    {
      jobs, keys, enqueued, created := 0, map[], 0, [];
    }

    ghost function View(): State
      reads this
    {
      State(jobs, keys, enqueued, created)
    }

    method Enqueue(now: nat, r: Request) returns (result: Result<JobId, Rejection>)
      modifies this
      ensures (result, View()) == Step(old(View()), Call(now, r))
      ensures result.Err? ==> View() == old(View())
    {
      if !r.knownName {
        return Err(UnknownJob);
      }
      if !r.payloadValid {
        return Err(InvalidPayload);
      }
      if r.delay.Some? {
        if !DelayOk(r.delay.value) {
          return Err(InvalidDelay);
        }
      }
      if !r.queueRegistered {
        return Err(QueueNotRegistered);
      }
      var id := AddJob(now, r);
      enqueued := enqueued + 1;
      return Ok(id);
    }

    method AddJob(now: nat, r: Request) returns (id: JobId)
      modifies this
      ensures (id, View()) == Add(old(View()), now, r)
    {
      if r.key.Some? && r.key.value in keys && now < keys[r.key.value].expiresAt {
        return keys[r.key.value].id;
      }
      id := jobs;
      jobs := jobs + 1;
      if r.key.Some? {
        keys := keys[r.key.value := LiveKey(id, now + Ttl(r))];
      }
      created := created + [(r.key, now)];
    }
  }

  // --------------------------------------------------------- runs and clocks

  predicate ClockMovesForward(from: nat, calls: seq<Call>) {
    && (forall i :: 0 <= i < |calls| ==> from <= calls[i].now)
    && (forall i, j :: 0 <= i <= j < |calls| ==> calls[i].now <= calls[j].now)
  }

  predicate TtlIs(calls: seq<Call>, key: string, ttl: nat) {
    forall i :: 0 <= i < |calls| && calls[i].request.key == Some(key) ==> Ttl(calls[i].request) == ttl
  }

  /** The creation times under one key, oldest first. */
  function Times(created: seq<(Option<string>, nat)>, key: string): seq<nat> {
    if created == [] then []
    else
      var n := |created| - 1;
      Times(created[..n], key) + if created[n].0 == Some(key) then [created[n].1] else []
  }

  predicate Spaced(times: seq<nat>, ttl: nat) {
    forall i :: 0 < i < |times| ==> times[i - 1] + ttl <= times[i]
  }

  /** A key's entry belongs to its latest job, and expires one TTL after that job was created. */
  ghost predicate KeyInvariant(s: State, key: string, ttl: nat, now: nat) {
    var times := Times(s.created, key);
    && Spaced(times, ttl)
    && (forall i :: 0 <= i < |times| ==> times[i] <= now)
    && (times != [] <==> key in s.keys)
    && (times != [] ==> s.keys[key].expiresAt == times[|times| - 1] + ttl)
  }

  lemma TimesAppend(created: seq<(Option<string>, nat)>, entry: (Option<string>, nat), key: string)
    ensures Times(created + [entry], key)
         == Times(created, key) + if entry.0 == Some(key) then [entry.1] else []
  {
    assert (created + [entry])[..|created|] == created;
  }

  lemma SpacedAppend(times: seq<nat>, at: nat, ttl: nat)
    requires Spaced(times, ttl) && (times != [] ==> times[|times| - 1] + ttl <= at)
    ensures Spaced(times + [at], ttl)
  {
  }

  /** A job created under the key, once its last job's TTL has passed. */
  lemma CreationKeepsKeyInvariant(s: State, t: State, key: string, ttl: nat, now: nat, at: nat)
    requires KeyInvariant(s, key, ttl, now) && now <= at && !Live(s, key, at)
    requires t.created == s.created + [(Some(key), at)]
    requires key in t.keys && t.keys[key].expiresAt == at + ttl
    ensures KeyInvariant(t, key, ttl, at)
  {
    var times := Times(s.created, key);
    TimesAppend(s.created, (Some(key), at), key);
    SpacedAppend(times, at, ttl);
    assert Times(t.created, key) == times + [at];
  }

  /** Nothing created under the key, and its entry untouched. */
  lemma OthersKeepKeyInvariant(s: State, t: State, key: string, ttl: nat, now: nat, at: nat)
    requires KeyInvariant(s, key, ttl, now) && now <= at
    requires Times(t.created, key) == Times(s.created, key)
    requires key in t.keys <==> key in s.keys
    requires key in s.keys ==> t.keys[key] == s.keys[key]
    ensures KeyInvariant(t, key, ttl, at)
  {
  }

  lemma AddKeepsKeyInvariant(s: State, at: nat, r: Request, key: string, ttl: nat, now: nat)
    requires KeyInvariant(s, key, ttl, now) && now <= at
    requires r.key == Some(key) ==> Ttl(r) == ttl
    ensures KeyInvariant(Add(s, at, r).1, key, ttl, at)
  {
    var t := Add(s, at, r).1;
    if r.key == Some(key) && !Live(s, key, at) {
      CreationKeepsKeyInvariant(s, t, key, ttl, now, at);
    } else {
      TimesAppend(s.created, (r.key, at), key);
      OthersKeepKeyInvariant(s, t, key, ttl, now, at);
    }
  }

  lemma StepKeepsKeyInvariant(s: State, call: Call, key: string, ttl: nat, now: nat)
    requires KeyInvariant(s, key, ttl, now) && now <= call.now
    requires call.request.key == Some(key) ==> Ttl(call.request) == ttl
    ensures KeyInvariant(Step(s, call).1, key, ttl, call.now)
  {
    AddKeepsKeyInvariant(s, call.now, call.request, key, ttl, now);
    var added := Add(s, call.now, call.request).1;
    var t := Step(s, call).1;
    assert t == s || (t.created == added.created && t.keys == added.keys);
  }

  lemma {:induction false} RunKeepsKeyInvariant(s: State, calls: seq<Call>, key: string, ttl: nat, now: nat)
    returns (end: nat)
    requires KeyInvariant(s, key, ttl, now) && ClockMovesForward(now, calls) && TtlIs(calls, key, ttl)
    ensures KeyInvariant(Run(s, calls), key, ttl, end)
    decreases |calls|
  {
    end := now;
    if calls != [] {
      StepKeepsKeyInvariant(s, calls[0], key, ttl, now);
      assert [calls[0]] + calls[1..] == calls;
      LaterClock(now, calls[0], calls[1..]);
      end := RunKeepsKeyInvariant(Step(s, calls[0]).1, calls[1..], key, ttl, calls[0].now);
    }
  }

  lemma {:induction false} SpacedTimesAreFarApart(times: seq<nat>, ttl: nat, i: nat, j: nat)
    requires Spaced(times, ttl) && i <= j < |times|
    ensures times[i] + (j - i) * ttl <= times[j]
  {
    if i < j {
      SpacedTimesAreFarApart(times, ttl, i, j - 1);
      assert (j - i) * ttl == (j - 1 - i) * ttl + ttl;
    }
  }

  /** Any window of length `span` holds at most 1 + span / ttl jobs created under one key. */
  lemma OneKeyCreatesFewJobs(calls: seq<Call>, key: string, ttl: nat, i: nat, j: nat, span: nat)
    requires ttl > 0 && ClockMovesForward(0, calls) && TtlIs(calls, key, ttl)
    requires var times := Times(Run(Initial(), calls).created, key);
             i <= j < |times| && times[j] - times[i] <= span
    ensures j - i + 1 <= 1 + span / ttl
  {
    var end := RunKeepsKeyInvariant(Initial(), calls, key, ttl, 0);
    SpacedTimesAreFarApart(Times(Run(Initial(), calls).created, key), ttl, i, j);
    QuotientBound(j - i, ttl, span);
  }

  lemma QuotientBound(n: nat, ttl: nat, span: nat)
    requires ttl > 0 && n * ttl <= span
    ensures n <= span / ttl
  {
    var q, r := span / ttl, span % ttl;
    assert span == q * ttl + r && r < ttl;
    assert (n - q) * ttl == n * ttl - q * ttl;
    ProductAtLeast(n - q, ttl);
  }

  lemma ProductAtLeast(a: int, b: nat)
    ensures a >= 1 ==> a * b >= b
  {
    assert a * b == (a - 1) * b + b;
  }

  /** An accepted call under a key creates a job exactly when the key had none, or its last job is a TTL old. */
  lemma CreatesIffTtlPassed(calls: seq<Call>, last: Call, key: string, ttl: nat)
    requires ClockMovesForward(0, calls) && TtlIs(calls, key, ttl)
    requires last.request.key == Some(key) && Rejected(last.request).None?
    ensures var s := Run(Initial(), calls); var times := Times(s.created, key);
            Step(s, last).1.jobs == s.jobs + (if times == [] || times[|times| - 1] + ttl <= last.now then 1 else 0)
  {
    var end := RunKeepsKeyInvariant(Initial(), calls, key, ttl, 0);
  }

  lemma {:induction false} RunThen(s: State, calls: seq<Call>, call: Call)
    ensures Run(s, calls + [call]) == Step(Run(s, calls), call).1
    decreases |calls|
  {
    if calls == [] {
      assert Run(s, [call]) == Run(Step(s, call).1, []);
    } else {
      assert (calls + [call])[1..] == calls[1..] + [call];
      RunThen(Step(s, calls[0]).1, calls[1..], call);
    }
  }

  function Keyed(now: nat, key: string, ttl: nat): Call {
    Call(now, Request(true, true, true, None, Some(key), Some(ttl)))
  }

  /** One accepted call per TTL, from time zero. */
  function OncePerTtl(n: nat, key: string, ttl: nat): seq<Call> {
    seq(n, i requires 0 <= i < n => Keyed(i * ttl, key, ttl))
  }

  lemma NextOncePerTtl(n: nat, key: string, ttl: nat)
    ensures OncePerTtl(n + 1, key, ttl) == OncePerTtl(n, key, ttl) + [Keyed(n * ttl, key, ttl)]
  {
  }

  lemma OncePerTtlMovesForward(n: nat, key: string, ttl: nat)
    ensures ClockMovesForward(0, OncePerTtl(n, key, ttl)) && TtlIs(OncePerTtl(n, key, ttl), key, ttl)
  {
    forall i, j | 0 <= i <= j < n
      ensures i * ttl <= j * ttl
    {
      assert j * ttl - i * ttl == (j - i) * ttl;
    }
  }

  function Multiples(n: nat, ttl: nat): seq<nat> {
    seq(n, i requires 0 <= i < n => i * ttl)
  }

  lemma NextMultiple(n: nat, ttl: nat)
    ensures Multiples(n + 1, ttl) == Multiples(n, ttl) + [n * ttl]
    ensures n > 0 ==> Multiples(n, ttl)[n - 1] + ttl == n * ttl
  {
    assert n * ttl == (n - 1) * ttl + ttl;
  }

  /** The bound cannot be lowered: n calls one TTL apart create n jobs, the last n - 1 TTLs after the first. */
  lemma {:induction false} BoundIsReached(n: nat, key: string, ttl: nat)
    ensures Times(Run(Initial(), OncePerTtl(n, key, ttl)).created, key) == Multiples(n, ttl)
  {
    if n == 0 {
      assert Run(Initial(), OncePerTtl(0, key, ttl)) == Initial();
    } else {
      BoundIsReached(n - 1, key, ttl);
      OncePerTtlMovesForward(n - 1, key, ttl);
      NextMultiple(n - 1, ttl);
      OneTtlLater(OncePerTtl(n - 1, key, ttl), (n - 1) * ttl, key, ttl);
      NextOncePerTtl(n - 1, key, ttl);
    }
  }

  lemma OneTtlLater(calls: seq<Call>, at: nat, key: string, ttl: nat)
    requires ClockMovesForward(0, calls) && TtlIs(calls, key, ttl)
    requires var times := Times(Run(Initial(), calls).created, key);
             times == [] || times[|times| - 1] + ttl <= at
    ensures Times(Run(Initial(), calls + [Keyed(at, key, ttl)]).created, key)
         == Times(Run(Initial(), calls).created, key) + [at]
  {
    CreatesIffTtlPassed(calls, Keyed(at, key, ttl), key, ttl);
    RunThen(Initial(), calls, Keyed(at, key, ttl));
    TimesAppend(Run(Initial(), calls).created, (Some(key), at), key);
  }

  // ---------------------------------------------------- whose job is returned

  /** A key's entry names a job that was created under that key. */
  ghost predicate JobsInvariant(s: State) {
    && s.jobs == |s.created|
    && forall key :: key in s.keys ==> s.keys[key].id < s.jobs && s.created[s.keys[key].id].0 == Some(key)
  }

  lemma {:induction false} RunKeepsJobsInvariant(s: State, calls: seq<Call>)
    requires JobsInvariant(s)
    ensures JobsInvariant(Run(s, calls))
    decreases |calls|
  {
    if calls != [] {
      RunKeepsJobsInvariant(Step(s, calls[0]).1, calls[1..]);
    }
  }

  /** The job an accepted call is given was created under the caller's own key, or for this call if it has none. */
  lemma ReturnedJobIsTheCallers(calls: seq<Call>, last: Call)
    requires Rejected(last.request).None?
    ensures var s := Run(Initial(), calls); var (result, t) := Step(s, last);
            && result.Ok? && result.value < t.jobs == |t.created|
            && t.created[result.value].0 == last.request.key
            && (last.request.key.None? ==> result.value == s.jobs == t.jobs - 1)
  {
    RunKeepsJobsInvariant(Initial(), calls);
  }

  lemma {:induction false} JobsOnlyGrow(s: State, calls: seq<Call>)
    ensures s.jobs <= Run(s, calls).jobs
    decreases |calls|
  {
    if calls != [] {
      JobsOnlyGrow(Step(s, calls[0]).1, calls[1..]);
    }
  }

  /** What a caller can rely on: a call that returns the id an earlier call returned created no job. */
  lemma SameIdMeansNoNewJob(before: seq<Call>, first: Call, between: seq<Call>, second: Call)
    ensures var (one, t) := Step(Run(Initial(), before), first);
            var u := Run(t, between); var (two, v) := Step(u, second);
            one.Ok? && two == one ==> v.jobs == u.jobs && v.created == u.created
  {
    var s := Run(Initial(), before);
    RunKeepsJobsInvariant(Initial(), before);
    JobsOnlyGrow(Step(s, first).1, between);
  }

  /** A key keeps its job for as long as it is live: a later accepted call within the TTL returns the same id. */
  lemma {:induction false} LiveKeyKeepsItsJob(s: State, calls: seq<Call>, key: string, last: Call, from: nat)
    requires key in s.keys && ClockMovesForward(from, calls + [last])
    requires last.now < s.keys[key].expiresAt
    requires last.request.key == Some(key) && Rejected(last.request).None?
    ensures var t := Run(s, calls);
            Step(t, last).0 == Ok(s.keys[key].id) && Step(t, last).1.jobs == t.jobs
    decreases |calls|
  {
    if calls != [] {
      assert calls + [last] == [calls[0]] + (calls[1..] + [last]);
      assert (calls + [last])[0] == calls[0] && (calls + [last])[|calls|] == last;
      var t := Step(s, calls[0]).1;
      assert t.keys[key] == s.keys[key];
      LaterClock(from, calls[0], calls[1..] + [last]);
      LiveKeyKeepsItsJob(t, calls[1..], key, last, calls[0].now);
    }
  }

  lemma LaterClock(from: nat, first: Call, rest: seq<Call>)
    requires ClockMovesForward(from, [first] + rest)
    ensures ClockMovesForward(first.now, rest)
  {
    assert forall i :: 0 <= i < |rest| ==> rest[i] == ([first] + rest)[i + 1];
    assert ([first] + rest)[0] == first;
  }

  /** Two accepted calls with one key, the second within the TTL of a first that created its job, share that job. */
  lemma RepeatWithinTtlIsTheSameJob(s: State, first: Call, between: seq<Call>, second: Call, key: string)
    requires ClockMovesForward(0, [first] + between + [second])
    requires first.request.key == second.request.key == Some(key)
    requires Rejected(first.request).None? && Rejected(second.request).None?
    requires !Live(s, key, first.now) && second.now < first.now + Ttl(first.request)
    ensures var (id, t) := Step(s, first); var u := Run(t, between);
            id == Ok(s.jobs) && Step(u, second).0 == id && Step(u, second).1.jobs == u.jobs
  {
    assert [first] + between + [second] == [first] + (between + [second]);
    LaterClock(0, first, between + [second]);
    LiveKeyKeepsItsJob(Step(s, first).1, between, key, second, first.now);
  }

  /** Whatever is enqueued in between, a key's entry stays, or makes way for a job created since. */
  lemma {:induction false} KeyStaysOrIsNewer(s: State, calls: seq<Call>, key: string)
    requires key in s.keys
    ensures var t := Run(s, calls);
            && s.jobs <= t.jobs && key in t.keys
            && (t.keys[key] == s.keys[key] || t.keys[key].id >= s.jobs)
    decreases |calls|
  {
    if calls != [] {
      KeyStaysOrIsNewer(Step(s, calls[0]).1, calls[1..], key);
    }
  }

  /**
   In every run, two accepted calls with one key return the same id exactly when the second is
   made while the key still lives as it did after the first, whether the first created the job or
   was itself collapsed onto it.
   */
  lemma SameJobIffKeyLives(before: seq<Call>, first: Call, between: seq<Call>, second: Call, key: string)
    requires ClockMovesForward(0, [first] + between + [second])
    requires first.request.key == second.request.key == Some(key)
    requires Rejected(first.request).None? && Rejected(second.request).None?
    ensures var (id, t) := Step(Run(Initial(), before), first); var u := Run(t, between);
            && key in t.keys && id == Ok(t.keys[key].id)
            && (Step(u, second).0 == id <==> second.now < t.keys[key].expiresAt)
  {
    var s := Run(Initial(), before);
    RunKeepsJobsInvariant(Initial(), before);
    RunKeepsJobsInvariant(s, [first]);
    assert Run(s, [first]) == Run(Step(s, first).1, []);
    var t := Step(s, first).1;
    if second.now < t.keys[key].expiresAt {
      assert [first] + between + [second] == [first] + (between + [second]);
      LaterClock(0, first, between + [second]);
      LiveKeyKeepsItsJob(t, between, key, second, first.now);
    } else {
      KeyStaysOrIsNewer(t, between, key);
    }
  }

  /**
   A call is accepted exactly when its name is known, its payload valid, its delay, if any, a whole
   number of milliseconds up to seven days, and its queue registered; and otherwise it is told the
   first of these that fails, and changes nothing.
   */
  lemma AcceptedIff(s: State, call: Call)
    ensures var (result, t) := Step(s, call); var r := call.request;
            var delayOk := r.delay.None? || exists n: nat :: n <= 7 * 24 * 60 * 60 * 1000 && r.delay == Some(Millis(n));
            && (result.Ok? <==> r.knownName && r.payloadValid && delayOk && r.queueRegistered)
            && (result == Err(UnknownJob) <==> !r.knownName)
            && (result == Err(InvalidPayload) <==> r.knownName && !r.payloadValid)
            && (result == Err(InvalidDelay) <==> r.knownName && r.payloadValid && !delayOk)
            && (result.Err? ==> t == s)
            && (result.Ok? ==> t.enqueued == s.enqueued + 1)
  {
    if call.request.delay.Some? {
      DelayOkIff(call.request.delay.value);
    }
  }

  /** An accepted call without a key always creates a job of its own. */
  lemma KeylessCallCreates(s: State, call: Call)
    requires Step(s, call).0.Ok? && call.request.key.None?
    ensures Step(s, call).0 == Ok(s.jobs) && Step(s, call).1.jobs == s.jobs + 1 && Step(s, call).1.keys == s.keys
  {
  }

  /** A key given without a TTL lives for 24 hours from the call that created its job, and one with a TTL that long. */
  lemma KeyLifetime(s: State, first: Call, key: string, now: nat)
    requires Step(s, first).0 == Ok(s.jobs) && first.request.key == Some(key) && Step(s, first).1.jobs == s.jobs + 1
    ensures var t := Step(s, first).1;
            var lifetime := match first.request.ttlMs case Some(ttl) => ttl case None => 24 * 60 * 60 * 1000;
            key in t.keys && t.keys[key] == LiveKey(s.jobs, first.now + lifetime)
            && (now < first.now + lifetime ==>
                  forall again: Call :: again.now == now && again.request == first.request ==>
                    Step(t, again).0 == Ok(s.jobs) && Step(t, again).1.jobs == t.jobs)
            && (now >= first.now + lifetime ==>
                  forall again: Call :: again.now == now && again.request == first.request ==>
                    Step(t, again).0 == Ok(t.jobs) && Step(t, again).1.jobs == t.jobs + 1)
  {
  }

  /** Jobs created plus calls collapsed onto a live key are the calls accepted; the counter counts all of them. */
  lemma {:induction false} CounterCountsAcceptedCalls(s: State, calls: seq<Call>)
    ensures Run(s, calls).enqueued == s.enqueued + Accepted(calls)
    ensures Run(s, calls).jobs - s.jobs == |Run(s, calls).created| - |s.created| <= Accepted(calls)
    decreases |calls|
  {
    if calls != [] {
      CounterCountsAcceptedCalls(Step(s, calls[0]).1, calls[1..]);
    }
  }

  function Accepted(calls: seq<Call>): nat {
    if calls == [] then 0
    else (if Rejected(calls[0].request).None? then 1 else 0) + Accepted(calls[1..])
  }
}
