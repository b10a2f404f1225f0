/**
 A job's way from an HTTP body to its handler: request validation, the split of transport
 options from payload, enqueue-time validation, and the worker's two-stage validation.

 A payload schema is abstract. It is asked only what an object schema gives: it looks at and
 keeps none but its own fields, and accepts its own output unchanged.
 */
module HttpToHandler {
  import opened Wrappers
  import Jobs = Enqueue

  datatype Value = Text(text: string) | Integer(n: int) | Other(tag: nat)

  type Fields = map<string, Value>

  datatype Schema = Schema(fields: set<string>, parse: Fields -> Option<Fields>)

  const OPTION_KEYS: set<string> := {"correlationId", "delay", "idempotencyKey"}

  ghost predicate ObjectSchema(s: Schema) {
    && s.fields !! OPTION_KEYS
    && (forall v: Fields :: s.parse(v).Some? ==>
          s.parse(v).value.Keys <= s.fields && s.parse(s.parse(v).value) == s.parse(v))
    && (forall v: Fields {:trigger Restrict(v, s.fields)} :: s.parse(Restrict(v, s.fields)) == s.parse(v))
  }

  function Restrict(v: Fields, keys: set<string>): Fields {
    map k | k in v && k in keys :: v[k]
  }

  predicate LabelOk(v: Value) {
    v.Text? && 1 <= |v.text| <= 200
  }

  predicate OptionsOk(body: Fields) {
    && ("correlationId" in body ==> LabelOk(body["correlationId"]))
    && ("idempotencyKey" in body ==> LabelOk(body["idempotencyKey"]))
    && ("delay" in body ==> body["delay"].Integer? && 0 <= body["delay"].n <= Jobs.MAX_DELAY_MS)
  }

  /** The route's schema: the payload schema extended with the options, refusing any other key. */
  function ParseRequest(s: Schema, body: Fields): Option<Fields> {
    if body.Keys <= s.fields + OPTION_KEYS && OptionsOk(body) && s.parse(body).Some?
    then Some(s.parse(body).value + Restrict(body, OPTION_KEYS))
    else None
  }

  datatype Options = Options(correlationId: Option<string>, delay: Option<int>, idempotencyKey: Option<string>)

  function TextOf(body: Fields, key: string): Option<string> {
    if key in body && body[key].Text? then Some(body[key].text) else None
  }

  function DelayOf(body: Fields): Option<int> {
    if "delay" in body && body["delay"].Integer? then Some(body["delay"].n) else None
  }

  function Split(body: Fields): (Options, Fields) {
    (Options(TextOf(body, "correlationId"),
             DelayOf(body),
             TextOf(body, "idempotencyKey")),
     body - OPTION_KEYS)
  }

  predicate SafeHeaderChar(c: char) {
    'A' <= c <= 'Z' || 'a' <= c <= 'z' || '0' <= c <= '9' || c in "._:-"
  }

  /** The id put in the request's context: a well-formed header, or else the generated request id. */
  function AmbientId(header: Option<string>, requestId: string): string {
    match header
    case Some(h) =>
      if 1 <= |h| <= 200 && forall i :: 0 <= i < |h| ==> SafeHeaderChar(h[i]) then h else requestId
    case None => requestId
  }

  datatype Meta = Meta(correlationId: string, idempotencyKey: Option<string>)

  datatype Envelope = Envelope(payload: Fields, meta: Meta)

  predicate DelayInRange(options: Options) {
    options.delay.Some? ==> 0 <= options.delay.value <= 7 * 24 * 60 * 60 * 1000
  }

  /** What `enqueue` is asked for under a registered name: it sees whether the payload parses, and the options. */
  function ToRequest(s: Schema, payload: Fields, options: Options): Jobs.Request {
    Jobs.Request(
      true,
      s.parse(payload).Some?,
      true,
      match options.delay case Some(n) => Some(Jobs.Finite(n as real)) case None => None,
      options.idempotencyKey,
      None)
  }

  /** What enqueueing puts on the queue, unless it rejects the request. */
  function Enqueue(s: Schema, payload: Fields, options: Options, ambient: string): Option<Envelope> {
    if Jobs.Rejected(ToRequest(s, payload, options)).Some? then None
    else Some(Envelope(s.parse(payload).value, Meta(options.correlationId.GetOr(ambient), options.idempotencyKey)))
  }

  lemma EnqueueAcceptsIff(s: Schema, payload: Fields, options: Options, ambient: string)
    ensures Enqueue(s, payload, options, ambient).Some?
       <==> s.parse(payload).Some? && DelayInRange(options)
  {
    if options.delay.Some? {
      Jobs.WholeDelayOkIff(options.delay.value);
    }
  }

  predicate LabelLengthOk(s: string) {
    1 <= |s| <= 200
  }

  predicate MetaOk(m: Meta) {
    LabelLengthOk(m.correlationId) && (m.idempotencyKey.Some? ==> LabelLengthOk(m.idempotencyKey.value))
  }

  datatype Invocation = Handled(payload: Fields, correlationId: string) | BadEnvelope | BadPayload

  /** The worker's `invoke`: first the envelope, then the payload, then the handler. */
  function Invoke(s: Schema, e: Envelope): Invocation {
    if !MetaOk(e.meta) then BadEnvelope
    else match s.parse(e.payload)
      case None => BadPayload
      case Some(payload) => Handled(payload, e.meta.correlationId)
  }

  /** What the POST handler does with an accepted body. */
  function Post(s: Schema, body: Fields, header: Option<string>, requestId: string): Option<Envelope> {
    match ParseRequest(s, body)
    case None => None
    case Some(accepted) =>
      var (options, payload) := Split(accepted);
      Enqueue(s, payload, options, AmbientId(header, requestId))
  }

  lemma SplitUndoesTheExtension(s: Schema, body: Fields)
    requires ObjectSchema(s) && ParseRequest(s, body).Some?
    ensures var (options, payload) := Split(ParseRequest(s, body).value);
            && payload == s.parse(body).value
            && options.correlationId == TextOf(body, "correlationId")
            && options.idempotencyKey == TextOf(body, "idempotencyKey")
            && options.delay == DelayOf(body)
            && (options.delay.Some? ==> 0 <= options.delay.value <= Jobs.MAX_DELAY_MS)
  {
    var parsed := s.parse(body).value;
    var accepted := ParseRequest(s, body).value;
    assert parsed.Keys !! OPTION_KEYS;
    assert accepted - OPTION_KEYS == parsed;
    assert forall k :: k in OPTION_KEYS ==> (k in accepted <==> k in body) && (k in body ==> accepted[k] == body[k]);
    assert {"correlationId", "delay", "idempotencyKey"} <= OPTION_KEYS;
  }

  /**
   Every body accepted over HTTP is enqueued, and its handler receives the payload the route
   validated and the correlation id of the body, else of a well-formed header, else of the request.
   */
  lemma AcceptedBodiesReachTheirHandler(s: Schema, body: Fields, header: Option<string>, requestId: string)
    requires ObjectSchema(s) && LabelLengthOk(requestId)
    ensures Post(s, body, header, requestId).Some? <==> ParseRequest(s, body).Some?
    ensures ParseRequest(s, body).Some? ==>
              Invoke(s, Post(s, body, header, requestId).value)
              == Handled(s.parse(body).value, TextOf(body, "correlationId").GetOr(AmbientId(header, requestId)))
  {
    if ParseRequest(s, body).Some? {
      SplitUndoesTheExtension(s, body);
      var (options, payload) := Split(ParseRequest(s, body).value);
      EnqueueAcceptsIff(s, payload, options, AmbientId(header, requestId));
      assert s.parse(s.parse(body).value) == s.parse(body);
    }
  }

  /** A header usable as a correlation id: 1 to 200 letters, digits, dots, underscores, colons and hyphens. */
  predicate UsableHeader(header: Option<string>) {
    && header.Some? && 1 <= |header.value| <= 200
    && forall i :: 0 <= i < |header.value| ==>
         var c := header.value[i];
         'A' <= c <= 'Z' || 'a' <= c <= 'z' || '0' <= c <= '9' || c == '.' || c == '_' || c == ':' || c == '-'
  }

  /**
   Which correlation id the handler of an accepted body is given: the body's own; without one, the
   header if it is usable; and for any other header, or none, the request's.
   */
  lemma HandlerGetsTheCallersId(s: Schema, body: Fields, header: Option<string>, requestId: string)
    requires ObjectSchema(s) && LabelLengthOk(requestId) && Post(s, body, header, requestId).Some?
    ensures var called := Invoke(s, Post(s, body, header, requestId).value);
            && called.Handled?
            && ("correlationId" in body ==> body["correlationId"] == Text(called.correlationId))
            && ("correlationId" !in body && UsableHeader(header) ==> called.correlationId == header.value)
            && ("correlationId" !in body && !UsableHeader(header) ==> called.correlationId == requestId)
  {
    AcceptedBodiesReachTheirHandler(s, body, header, requestId);
    assert "correlationId" in body ==> LabelOk(body["correlationId"]);
    assert header.Some? ==> forall i :: 0 <= i < |header.value| ==>
        (SafeHeaderChar(header.value[i]) <==>
          var c := header.value[i];
          'A' <= c <= 'Z' || 'a' <= c <= 'z' || '0' <= c <= '9' || c == '.' || c == '_' || c == ':' || c == '-');
  }

  /** A body is accepted exactly when it has no unknown key, its options are in range, and its payload parses. */
  lemma BodyIsAcceptedIff(s: Schema, body: Fields, header: Option<string>, requestId: string)
    requires ObjectSchema(s) && LabelLengthOk(requestId)
    ensures Post(s, body, header, requestId).Some?
       <==> && (forall k :: k in body ==>
                  k in s.fields || k == "correlationId" || k == "delay" || k == "idempotencyKey")
            && (forall k :: k in body && (k == "correlationId" || k == "idempotencyKey") ==>
                  body[k].Text? && 1 <= |body[k].text| <= 200)
            && ("delay" in body ==> body["delay"].Integer? && 0 <= body["delay"].n <= 7 * 24 * 60 * 60 * 1000)
            && s.parse(body).Some?
  {
    AcceptedBodiesReachTheirHandler(s, body, header, requestId);
    assert body.Keys <= s.fields + OPTION_KEYS <==>
      forall k :: k in body ==> k in s.fields || k == "correlationId" || k == "delay" || k == "idempotencyKey";
  }

  /** What an accepted body puts on the queue: the parsed payload, and under the caller's key if it gave one. */
  lemma AcceptedBodyKeepsItsKey(s: Schema, body: Fields, header: Option<string>, requestId: string)
    requires ObjectSchema(s) && LabelLengthOk(requestId) && Post(s, body, header, requestId).Some?
    ensures var posted := Post(s, body, header, requestId);
            && Some(posted.value.payload) == s.parse(body)
            && (posted.value.meta.idempotencyKey.Some? <==> "idempotencyKey" in body)
            && ("idempotencyKey" in body ==> body["idempotencyKey"] == Text(posted.value.meta.idempotencyKey.value))
  {
    AcceptedBodiesReachTheirHandler(s, body, header, requestId);
    SplitUndoesTheExtension(s, body);
    assert s.parse(s.parse(body).value) == s.parse(body);
    assert "idempotencyKey" in body ==> LabelOk(body["idempotencyKey"]);
  }

  /**
   Enqueueing from code validates the payload but not the labels: what it accepts reaches the
   handler exactly when the correlation id and the idempotency key have 1 to 200 characters.
   */
  lemma EnqueuedFromCodeReachesHandlerIff(s: Schema, payload: Fields, options: Options, ambient: string)
    requires ObjectSchema(s) && Enqueue(s, payload, options, ambient).Some?
    ensures Invoke(s, Enqueue(s, payload, options, ambient).value).Handled?
       <==> 1 <= |options.correlationId.GetOr(ambient)| <= 200
            && (options.idempotencyKey.Some? ==> 1 <= |options.idempotencyKey.value| <= 200)
  {
    assert s.parse(s.parse(payload).value) == s.parse(payload);
  }

  // ------------------------------------------------- the two ways to enqueue

  function Field(key: string, value: Option<Value>): Fields {
    if value.Some? then map[key := value.value] else map[]
  }

  function TextField(key: string, value: Option<string>): Fields {
    Field(key, if value.Some? then Some(Text(value.value)) else None)
  }

  /** The body a client posts for a payload and its options. */
  function ToBody(payload: Fields, options: Options): Fields {
    payload
    + TextField("correlationId", options.correlationId)
    + Field("delay", if options.delay.Some? then Some(Integer(options.delay.value)) else None)
    + TextField("idempotencyKey", options.idempotencyKey)
  }

  predicate OptionLabelsOk(options: Options) {
    && (options.correlationId.Some? ==> 1 <= |options.correlationId.value| <= 200)
    && (options.idempotencyKey.Some? ==> 1 <= |options.idempotencyKey.value| <= 200)
  }

  /** What the body holds under each key. */
  lemma BodyFields(payload: Fields, options: Options)
    requires payload.Keys !! OPTION_KEYS
    ensures var body := ToBody(payload, options);
            && (forall k :: k in payload ==> k in body && body[k] == payload[k])
            && TextOf(body, "correlationId") == options.correlationId
            && TextOf(body, "idempotencyKey") == options.idempotencyKey
            && ("correlationId" in body <==> options.correlationId.Some?)
            && ("idempotencyKey" in body <==> options.idempotencyKey.Some?)
            && ("delay" in body <==> options.delay.Some?)
            && (options.delay.Some? ==> body["delay"] == Integer(options.delay.value))
            && body.Keys <= payload.Keys + OPTION_KEYS
  {
  }

  lemma BodyHoldsItsParts(s: Schema, payload: Fields, options: Options)
    requires ObjectSchema(s) && payload.Keys !! OPTION_KEYS
    ensures var body := ToBody(payload, options);
            && (body.Keys <= s.fields + OPTION_KEYS <==> payload.Keys <= s.fields)
            && Split(body) == (options, payload)
            && s.parse(body) == s.parse(payload)
            && (OptionsOk(body) <==> OptionLabelsOk(options) && DelayInRange(options))
  {
    var body := ToBody(payload, options);
    BodyFields(payload, options);
    assert body - OPTION_KEYS == payload;
    assert Restrict(body, s.fields) == Restrict(payload, s.fields);
    assert payload.Keys <= body.Keys;
  }

  /**
   Posting a payload with its options is the same as enqueueing them from code in the request's
   context, except that only the route refuses a label that does not have 1 to 200 characters,
   and a payload with a key its schema does not know, which code enqueues without it.
   */
  lemma PostIsEnqueueWithLabelCheck(
    s: Schema, payload: Fields, options: Options, header: Option<string>, requestId: string)
    requires ObjectSchema(s) && payload.Keys !! OPTION_KEYS
    ensures Post(s, ToBody(payload, options), header, requestId)
         == if OptionLabelsOk(options) && payload.Keys <= s.fields
            then Enqueue(s, payload, options, AmbientId(header, requestId)) else None
    ensures Enqueue(s, payload, options, AmbientId(header, requestId))
         == Enqueue(s, Restrict(payload, s.fields), options, AmbientId(header, requestId))
  {
    var body := ToBody(payload, options);
    BodyHoldsItsParts(s, payload, options);
    EnqueueAcceptsIff(s, payload, options, AmbientId(header, requestId));
    if ParseRequest(s, body).Some? {
      SplitUndoesTheExtension(s, body);
      assert s.parse(s.parse(payload).value) == s.parse(payload);
    }
  }
}
