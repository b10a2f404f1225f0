/**
 The deterministic id of a dead-letter record, `dlq-<queue>-<job id>-<attempts>`.

 `Queue.add` ignores an id it already holds, so two failures share one record exactly
 when their ids are equal. The parser below is the reference that shows how much of the
 failure the id still determines.
 */
module DeadLetterIds {
  import opened Wrappers

  const DEAD_LETTER_QUEUE := "dead-letter"

  /** The queues a worker consumes; the dead-letter queue is not one of them. */
  const WORKER_QUEUES: seq<string> := ["email", "reports", "maintenance"]

  /** What identifies a terminal failure. */
  datatype Failure = Failure(sourceQueue: string, sourceJobId: string, attemptsMade: nat)

  // ---------------------------------------------------------------- printing

  predicate IsSafe(c: char) {
    'A' <= c <= 'Z' || 'a' <= c <= 'z' || '0' <= c <= '9' || c == '_' || c == '-'
  }

  predicate AllSafe(s: string) {
    forall i :: 0 <= i < |s| ==> IsSafe(s[i])
  }

  function ToIdToken(value: string): string {
    seq(|value|, i requires 0 <= i < |value| => if IsSafe(value[i]) then value[i] else '_')
  }

  function Decimal(n: nat): (s: string)
    ensures s != ""
  {
    if n < 10 then [Digit(n)] else Decimal(n / 10) + [Digit(n % 10)]
  }

  function Digit(d: nat): char
    requires d < 10
  {
    (48 + d) as char
  }

  function JobId(f: Failure): string {
    "dlq-" + ToIdToken(f.sourceQueue) + "-" + ToIdToken(f.sourceJobId) + "-" + Decimal(f.attemptsMade)
  }

  // ----------------------------------------------------------------- parsing

  function ParseDecimal(s: string): Option<nat> {
    if s == "" || !('0' <= s[|s| - 1] <= '9') then None
    else
      var d := s[|s| - 1] as int - 48;
      if |s| == 1 then Some(d)
      else match ParseDecimal(s[..|s| - 1])
        case Some(n) => Some(10 * n + d)
        case None => None
  }

  /** Splits at the last hyphen: what precedes it, and what follows it. */
  function SplitLast(s: string): Option<(string, string)> {
    if s == "" then None
    else if s[|s| - 1] == '-' then Some((s[..|s| - 1], ""))
    else match SplitLast(s[..|s| - 1])
      case Some((before, after)) => Some((before, after + [s[|s| - 1]]))
      case None => None
  }

  function ParseFrom(queues: seq<string>, s: string): Option<Failure> {
    if queues == [] then None
    else
      var prefix := "dlq-" + queues[0] + "-";
      if prefix <= s then ParseRest(queues[0], s[|prefix|..]) else ParseFrom(queues[1..], s)
  }

  function ParseRest(queue: string, rest: string): Option<Failure> {
    match SplitLast(rest)
    case None => None
    case Some((id, attempts)) =>
      match ParseDecimal(attempts)
      case Some(n) => Some(Failure(queue, id, n))
      case None => None
  }

  function Parse(s: string): Option<Failure> {
    ParseFrom(WORKER_QUEUES, s)
  }

  // ------------------------------------------------------------------ lemmas

  lemma {:induction false} ParseDecimalInvertsDecimal(n: nat)
    ensures ParseDecimal(Decimal(n)) == Some(n)
    ensures forall i :: 0 <= i < |Decimal(n)| ==> '0' <= Decimal(n)[i] <= '9'
  {
    if n >= 10 {
      ParseDecimalInvertsDecimal(n / 10);
      var s := Decimal(n);
      assert s[..|s| - 1] == Decimal(n / 10);
    }
  }

  lemma {:induction false} SplitLastFindsTheLastHyphen(before: string, after: string)
    requires forall i :: 0 <= i < |after| ==> after[i] != '-'
    ensures SplitLast(before + "-" + after) == Some((before, after))
  {
    var s := before + "-" + after;
    if after == "" {
      assert s[..|s| - 1] == before;
    } else {
      var shorter := after[..|after| - 1];
      assert s[..|s| - 1] == before + "-" + shorter;
      assert after == shorter + [after[|after| - 1]];
      SplitLastFindsTheLastHyphen(before, shorter);
    }
  }

  lemma TokenFixesSafeStrings(s: string)
    ensures ToIdToken(s) == s <==> AllSafe(s)
    ensures AllSafe(ToIdToken(s)) && ToIdToken(ToIdToken(s)) == ToIdToken(s)
  {
    if !AllSafe(s) {
      var i :| 0 <= i < |s| && !IsSafe(s[i]);
      assert ToIdToken(s)[i] != s[i];
    } else {
      assert ToIdToken(s) == s;
    }
    assert ToIdToken(ToIdToken(s)) == ToIdToken(s);
  }

  /** Safe names with distinct first letters cannot be mistaken for one another. */
  ghost predicate Distinguishable(queues: seq<string>) {
    && (forall i :: 0 <= i < |queues| ==> queues[i] != "" && AllSafe(queues[i]))
    && (forall i, j :: 0 <= i < j < |queues| ==> queues[i][0] != queues[j][0])
  }

  lemma WorkerQueuesAreDistinguishable()
    ensures Distinguishable(WORKER_QUEUES)
  {
    assert AllSafe("email") && AllSafe("reports") && AllSafe("maintenance");
  }

  lemma {:induction false} OwnQueueIsFound(queues: seq<string>, q: string, rest: string)
    requires q in queues && Distinguishable(queues)
    ensures ParseFrom(queues, "dlq-" + q + "-" + rest) == ParseRest(q, rest)
  {
    var s := "dlq-" + q + "-" + rest;
    var prefix := "dlq-" + queues[0] + "-";
    if queues[0] == q {
      assert s[|prefix|..] == rest;
    } else {
      assert s[4] == q[0] && prefix[4] == queues[0][0];
      OwnQueueIsFound(queues[1..], q, rest);
    }
  }

  lemma ParseFromInvertsJobId(queues: seq<string>, f: Failure)
    requires f.sourceQueue in queues && Distinguishable(queues)
    ensures ParseFrom(queues, JobId(f)) == Some(f.(sourceJobId := ToIdToken(f.sourceJobId)))
  {
    var q, id, n := f.sourceQueue, ToIdToken(f.sourceJobId), Decimal(f.attemptsMade);
    TokenFixesSafeStrings(q);
    ParseDecimalInvertsDecimal(f.attemptsMade);
    SplitLastFindsTheLastHyphen(id, n);
    assert JobId(f) == "dlq-" + q + "-" + (id + "-" + n);
    OwnQueueIsFound(queues, q, id + "-" + n);
  }

  /** Parsing gives back the queue, the flattened job id and the attempt count. */
  lemma ParseInvertsJobId(f: Failure)
    requires f.sourceQueue in WORKER_QUEUES
    ensures Parse(JobId(f)) == Some(f.(sourceJobId := ToIdToken(f.sourceJobId)))
  {
    WorkerQueuesAreDistinguishable();
    ParseFromInvertsJobId(WORKER_QUEUES, f);
  }

  /** A record id determines the failure it came from exactly when the job id is already a safe token. */
  lemma JobIdRoundTripsIffSafe(f: Failure)
    requires f.sourceQueue in WORKER_QUEUES
    ensures Parse(JobId(f)) == Some(f) <==> AllSafe(f.sourceJobId)
  {
    ParseInvertsJobId(f);
    TokenFixesSafeStrings(f.sourceJobId);
  }

  /** Two failures share a record exactly when queue, attempts and flattened job id agree. */
  lemma CollideIff(f: Failure, g: Failure)
    requires f.sourceQueue in WORKER_QUEUES && g.sourceQueue in WORKER_QUEUES
    ensures JobId(f) == JobId(g)
       <==> f.sourceQueue == g.sourceQueue && f.attemptsMade == g.attemptsMade
            && ToIdToken(f.sourceJobId) == ToIdToken(g.sourceJobId)
  {
    ParseInvertsJobId(f);
    ParseInvertsJobId(g);
  }

  /** Flattening keeps the length and every letter, digit, `_` and `-`, and puts `_` for anything else. */
  lemma TokenByCharacter(value: string)
    ensures |ToIdToken(value)| == |value|
    ensures forall i :: 0 <= i < |value| ==>
              var c := value[i];
              ToIdToken(value)[i]
              == if 'A' <= c <= 'Z' || 'a' <= c <= 'z' || '0' <= c <= '9' || c == '_' || c == '-' then c else '_'
  {
  }

  /** The character is kept as `_` is, or is not kept. */
  predicate Blank(c: char) {
    !('A' <= c <= 'Z' || 'a' <= c <= 'z' || '0' <= c <= '9' || c == '-')
  }

  /**
   Two failures of one queue and attempt count share a record exactly when their job ids have one
   length and at every place carry the same character or two that are both flattened to `_`.
   */
  lemma CollideByCharacterIff(f: Failure, g: Failure)
    requires f.sourceQueue in WORKER_QUEUES && g.sourceQueue in WORKER_QUEUES
    ensures JobId(f) == JobId(g)
       <==> f.sourceQueue == g.sourceQueue && f.attemptsMade == g.attemptsMade
            && |f.sourceJobId| == |g.sourceJobId|
            && forall i :: 0 <= i < |f.sourceJobId| ==>
                 f.sourceJobId[i] == g.sourceJobId[i] || (Blank(f.sourceJobId[i]) && Blank(g.sourceJobId[i]))
  {
    CollideIff(f, g);
    TokenByCharacter(f.sourceJobId);
    TokenByCharacter(g.sourceJobId);
    if ToIdToken(f.sourceJobId) == ToIdToken(g.sourceJobId) {
      forall i | 0 <= i < |f.sourceJobId|
        ensures f.sourceJobId[i] == g.sourceJobId[i] || (Blank(f.sourceJobId[i]) && Blank(g.sourceJobId[i]))
      {
        assert ToIdToken(f.sourceJobId)[i] == ToIdToken(g.sourceJobId)[i];
      }
    }
  }

  /** A record id reads as its parts, queue and attempts in plain. */
  lemma JobIdOfPlainParts(f: Failure)
    requires f.sourceQueue in WORKER_QUEUES && AllSafe(f.sourceJobId) && f.attemptsMade < 10
    ensures JobId(f) == "dlq-" + f.sourceQueue + "-" + f.sourceJobId + "-" + [(48 + f.attemptsMade) as char]
  {
    WorkerQueuesAreDistinguishable();
    TokenFixesSafeStrings(f.sourceQueue);
    TokenFixesSafeStrings(f.sourceJobId);
  }

  /** No id contains the `:` that the queue library uses as its key separator. */
  lemma JobIdIsSafe(f: Failure)
    ensures AllSafe(JobId(f))
  {
    TokenFixesSafeStrings(f.sourceQueue);
    TokenFixesSafeStrings(f.sourceJobId);
    ParseDecimalInvertsDecimal(f.attemptsMade);
  }
}
