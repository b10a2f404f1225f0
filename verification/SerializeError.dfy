/**
 Bounded serialization of thrown values.

 Thrown values form a graph whose `cause` links may be cyclic. A property read that throws
 reads as `Undefined`, as the source's guarded read does. Two things are not guarded. Asking
 whether a value is an error throws for a revoked proxy, here `Opaque`. And rendering a value as
 text, the parameter `show`, may throw, as for a function whose `toString` does, or give no text
 at all, as for an object whose `toJSON` answers undefined.
 */
module SerializeError {
  import opened Wrappers
  import opened Text

  const STACK_MAX_LINES: nat := 12
  const CAUSE_MAX_DEPTH: nat := 3
  const TRUNCATED := "    ... stack truncated"

  type Ref = nat

  datatype Value =
    | Undefined
    | Null
    | Text(text: string)
    | Number(printed: string)
    | Other(kind: nat)           // booleans, symbols, bigints, functions
    | Object(ref: Ref)
    | Error(ref: Ref)
    | Opaque                     // not even its prototype can be asked for

  /** What the guarded reads see of an object. */
  datatype Node = Node(name: Value, message: Value, stack: Value, code: Value, cause: Value)

  datatype Serialized = Serialized(
    name: string,
    message: Option<string>,
    stack: Option<string>,
    code: Option<string>,
    cause: Option<Serialized>)

  type Heap = Ref -> Node
  datatype Rendering = Gives(text: string) | GivesNothing | Raises(value: Value)

  type Show = Value -> Rendering

  /** What serialization throws: an error of the engine's, or whatever a rendering threw. */
  datatype Fault = EngineError | Raised(value: Value)

  /** A summary needs a serialized error, and then a message to measure. */
  datatype FormatError = Unserializable(fault: Fault) | NoMessage

  function TruncateStack(stack: string): string {
    var lines := Split(stack);
    if |lines| <= STACK_MAX_LINES then stack else Join(lines[..STACK_MAX_LINES] + [TRUNCATED])
  }

  function NameOf(name: Value): string {
    if name.Text? && name.text != "" then name.text else "Error"
  }

  function CodeOf(code: Value): Option<string> {
    match code
    case Text(s) => Some(s)
    case Number(s) => Some(s)
    case _ => None
  }

  function StackOf(stack: Value): Option<string> {
    if stack.Text? && stack.text != "" then Some(TruncateStack(stack.text)) else None
  }

  function Printed(r: Rendering): Result<Option<string>, Fault> {
    match r
    case Gives(text) => Ok(Some(text))
    case GivesNothing => Ok(None)
    case Raises(value) => Err(Raised(value))
  }

  function SerializeValue(heap: Heap, show: Show, value: Value, depth: nat := 0): Result<Serialized, Fault>
    decreases CAUSE_MAX_DEPTH - depth
  {
    match value
    case Opaque => Err(EngineError)
    case Error(ref) =>
      var node := heap(ref);
      var message := if node.message.Text? then Ok(Some(node.message.text)) else Printed(show(node.message));
      if message.Err? then Err(message.error)
      else
        var own := Serialized(NameOf(node.name), message.value, StackOf(node.stack), CodeOf(node.code), None);
        if node.cause != Undefined && depth < CAUSE_MAX_DEPTH then
          match SerializeValue(heap, show, node.cause, depth + 1)
          case Err(fault) => Err(fault)
          case Ok(cause) => Ok(own.(cause := Some(cause)))
        else Ok(own)
    case Text(s) => Ok(Serialized("Error", Some(s), None, None, None))
    case Undefined => Ok(Serialized("Error", Some("undefined"), None, None, None))
    case Null => Ok(Serialized("Error", Some("null"), None, None, None))
    case Object(ref) =>
      var node := heap(ref);
      var message := if node.message.Text? then Ok(Some(node.message.text)) else Printed(show(value));
      if message.Err? then Err(message.error)
      else Ok(Serialized(NameOf(node.name), message.value, None, CodeOf(node.code), None))
    case _ =>
      var message := Printed(show(value));
      if message.Err? then Err(message.error)
      else Ok(Serialized("Error", message.value, None, None, None))
  }

  /** JavaScript's `slice(0, end)`: a negative end counts from the back. */
  function SliceTo(s: string, end: int): string {
    if end >= |s| then s
    else if end >= 0 then s[..end]
    else if |s| + end > 0 then s[..|s| + end]
    else ""
  }

  /** The summary before it is cut to length. */
  function Reason(heap: Heap, show: Show, value: Value): Result<string, FormatError> {
    match SerializeValue(heap, show, value)
    case Err(fault) => Err(Unserializable(fault))
    case Ok(s) =>
      match s.message
      case None => Err(NoMessage)
      case Some(message) => Ok(if message != "" then s.name + ": " + message else s.name)
  }

  function FormatErrorReason(heap: Heap, show: Show, value: Value, maxChars: int): Result<string, FormatError> {
    match Reason(heap, show, value)
    case Err(e) => Err(e)
    case Ok(reason) => Ok(if |reason| > maxChars then SliceTo(reason, maxChars - 3) + "..." else reason)
  }

  // ------------------------------------------------------- the bounded chain

  /** The value `k` cause links away, following links from error to error only. */
  function Follow(heap: Heap, value: Value, k: nat): Option<Value> {
    if k == 0 then Some(value)
    else match Follow(heap, value, k - 1)
      case Some(Error(ref)) => if heap(ref).cause != Undefined then Some(heap(ref).cause) else None
      case _ => None
  }

  /** The serialized form `k` causes deep. */
  function CauseAt(s: Serialized, k: nat): Option<Serialized> {
    if k == 0 then Some(s)
    else match s.cause
      case Some(cause) => CauseAt(cause, k - 1)
      case None => None
  }

  lemma {:induction false} FollowFromCause(heap: Heap, ref: Ref, k: nat)
    requires heap(ref).cause != Undefined
    ensures Follow(heap, Error(ref), k + 1) == Follow(heap, heap(ref).cause, k)
  {
    if k > 0 {
      FollowFromCause(heap, ref, k - 1);
    } else {
      assert Follow(heap, Error(ref), 0) == Some(Error(ref));
    }
  }

  lemma {:induction false} FollowEnds(heap: Heap, value: Value, k: nat)
    requires k > 0 && Follow(heap, value, 1) == None
    ensures Follow(heap, value, k) == None
  {
    if k > 1 {
      FollowEnds(heap, value, k - 1);
    }
  }

  // -------------------------------------------------- when serialization fails

  /** The text a value already carries: a text itself, or the textual message of an error or object. */
  function OwnText(heap: Heap, value: Value): Option<string> {
    match value
    case Text(s) => Some(s)
    case Error(ref) => if heap(ref).message.Text? then Some(heap(ref).message.text) else None
    case Object(ref) => if heap(ref).message.Text? then Some(heap(ref).message.text) else None
    case _ => None
  }

  /** What has to be rendered when a value carries no text: an error's message, or else the value. */
  function Rendered(heap: Heap, value: Value): Value {
    if value.Error? then heap(value.ref).message else value
  }

  /** Nothing spares the value from being rendered: it carries no text, and a bare null or undefined needs none. */
  predicate NeedsRendering(heap: Heap, value: Value) {
    !value.Null? && !value.Undefined? && !value.Opaque? && OwnText(heap, value).None?
  }

  /** The value cannot be classified, or its rendering throws. */
  predicate FailsAlone(heap: Heap, show: Show, value: Value) {
    value.Opaque? || (NeedsRendering(heap, value) && show(Rendered(heap, value)).Raises?)
  }

  /** The value can be rendered, and nothing comes of it. */
  predicate NoMessageFor(heap: Heap, show: Show, value: Value) {
    NeedsRendering(heap, value) && show(Rendered(heap, value)).GivesNothing?
  }

  /** Among the values at most `links` causes away there is one that fails on its own. */
  predicate FailsWithin(heap: Heap, show: Show, value: Value, links: nat) {
    exists k: nat :: k <= links && Follow(heap, value, k).Some? && FailsAlone(heap, show, Follow(heap, value, k).value)
  }

  predicate Linked(heap: Heap, value: Value) {
    value.Error? && heap(value.ref).cause != Undefined
  }

  /** A value that is fine on its own fails exactly when its cause does. */
  lemma FailsWithinCause(heap: Heap, show: Show, value: Value, links: nat)
    ensures FailsWithin(heap, show, value, links)
       <==> FailsAlone(heap, show, value)
            || (links > 0 && Linked(heap, value) && FailsWithin(heap, show, heap(value.ref).cause, links - 1))
  {
    assert Follow(heap, value, 0) == Some(value);
    forall k: nat | 0 < k <= links
      ensures Follow(heap, value, k) == if Linked(heap, value) then Follow(heap, heap(value.ref).cause, k - 1) else None
    {
      if Linked(heap, value) {
        FollowFromCause(heap, value.ref, k - 1);
      } else {
        assert Follow(heap, value, 1) == None;
        FollowEnds(heap, value, k);
      }
    }
    if links > 0 && Linked(heap, value) && FailsWithin(heap, show, heap(value.ref).cause, links - 1) {
      var cause := heap(value.ref).cause;
      var k: nat :|
        k <= links - 1 && Follow(heap, cause, k).Some? && FailsAlone(heap, show, Follow(heap, cause, k).value);
      assert Follow(heap, value, k + 1) == Follow(heap, cause, k);
    }
  }

  /**
   Serialization is meant never to become the thing that fails. It fails exactly when some value
   it would reach, following causes from error to error for as many links as are left, cannot be
   classified or throws when it is rendered, whatever text the error itself carries.
   */
  lemma {:induction false} SerializeFailsIff(heap: Heap, show: Show, value: Value, depth: nat)
    requires depth <= CAUSE_MAX_DEPTH
    ensures SerializeValue(heap, show, value, depth).Err?
       <==> FailsWithin(heap, show, value, CAUSE_MAX_DEPTH - depth)
    decreases CAUSE_MAX_DEPTH - depth
  {
    FailsWithinCause(heap, show, value, CAUSE_MAX_DEPTH - depth);
    if Linked(heap, value) && depth < CAUSE_MAX_DEPTH {
      SerializeFailsIff(heap, show, heap(value.ref).cause, depth + 1);
    }
  }

  /**
   On every graph, cyclic ones included, what serialization at some depth gives is the chain of
   values reached by following causes, each serialized on its own, and cut at the depth limit.
   */
  lemma {:induction false} SerializeFollowsCauses(heap: Heap, show: Show, value: Value, depth: nat, k: nat)
    requires depth <= CAUSE_MAX_DEPTH && SerializeValue(heap, show, value, depth).Ok?
    ensures var at := CauseAt(SerializeValue(heap, show, value, depth).value, k);
            && (at.Some? <==> Follow(heap, value, k).Some? && depth + k <= CAUSE_MAX_DEPTH)
            && (at.Some? ==> SerializeValue(heap, show, Follow(heap, value, k).value, depth + k) == Ok(at.value))
    decreases k
  {
    if k > 0 {
      assert Follow(heap, value, 0) == Some(value);
      if Linked(heap, value) && depth < CAUSE_MAX_DEPTH {
        SerializeFollowsCauses(heap, show, heap(value.ref).cause, depth + 1, k - 1);
        FollowFromCause(heap, value.ref, k - 1);
      } else if !Linked(heap, value) {
        assert Follow(heap, value, 1) == None;
        FollowEnds(heap, value, k);
      }
    }
  }

  /** An error that is its own cause serializes, if it does on its own, to exactly four copies of itself. */
  lemma SelfCauseUnrollsFourTimes(heap: Heap, show: Show, ref: Ref, k: nat)
    requires heap(ref).cause == Error(ref)
    ensures var r := SerializeValue(heap, show, Error(ref));
            && (r.Ok? <==> !FailsAlone(heap, show, Error(ref)))
            && (r.Ok? ==> (CauseAt(r.value, k).Some? <==> k <= 3))
  {
    SerializeFailsIff(heap, show, Error(ref), 0);
    forall links: nat
      ensures Follow(heap, Error(ref), links) == Some(Error(ref))
    {
      SelfCauseFollows(heap, ref, links);
    }
    if SerializeValue(heap, show, Error(ref)).Ok? {
      SerializeFollowsCauses(heap, show, Error(ref), 0, k);
    } else {
      assert FailsWithin(heap, show, Error(ref), CAUSE_MAX_DEPTH);
    }
    if FailsAlone(heap, show, Error(ref)) {
      FailsWithinCause(heap, show, Error(ref), CAUSE_MAX_DEPTH);
    }
  }

  lemma {:induction false} SelfCauseFollows(heap: Heap, ref: Ref, k: nat)
    requires heap(ref).cause == Error(ref)
    ensures Follow(heap, Error(ref), k) == Some(Error(ref))
  {
    if k > 0 {
      SelfCauseFollows(heap, ref, k - 1);
    }
  }

  /**
   Whatever serializes, at whatever depth, its record has a name, keeps a text the value carries,
   and has a stack and a cause only from an error. It lacks a message exactly when the value
   carries no text and renders to nothing.
   */
  lemma SerializedIsUsable(heap: Heap, show: Show, value: Value, depth: nat)
    requires SerializeValue(heap, show, value, depth).Ok?
    ensures var s := SerializeValue(heap, show, value, depth).value;
            && s.name != ""
            && (OwnText(heap, value).Some? ==> s.message == OwnText(heap, value))
            && (s.message.None? <==> NoMessageFor(heap, show, value))
            && (s.stack.Some? <==> value.Error? && heap(value.ref).stack.Text? && heap(value.ref).stack.text != "")
            && (s.stack.Some? ==> |Split(s.stack.value)| <= STACK_MAX_LINES + 1)
            && (s.code.Some? ==> value.Error? || value.Object?)
            && (s.cause.Some? ==> value.Error?)
  {
    if value.Error? && heap(value.ref).stack.Text? {
      TruncateStackIsBoundedAndIdempotent(heap(value.ref).stack.text);
    }
  }

  /** The name to report: a text the value carries as its name, unless that is empty, and else `Error`. */
  function OwnName(heap: Heap, value: Value): string {
    if (value.Error? || value.Object?) && heap(value.ref).name.Text? && heap(value.ref).name.text != ""
    then heap(value.ref).name.text
    else "Error"
  }

  /** The words to report: the text the value carries; of a bare null or undefined its name; else its rendering. */
  function OwnWords(heap: Heap, show: Show, value: Value): Option<string> {
    if OwnText(heap, value).Some? then OwnText(heap, value)
    else if value.Null? then Some("null")
    else if value.Undefined? then Some("undefined")
    else if show(Rendered(heap, value)).Gives? then Some(show(Rendered(heap, value)).text)
    else None
  }

  /**
   What the record of a value says of it, at any depth: its name, its words, an error's stack up to
   twelve lines, and the code if that is a text or a number.
   */
  lemma SerializedSaysWhatItIs(heap: Heap, show: Show, value: Value, depth: nat)
    requires SerializeValue(heap, show, value, depth).Ok?
    ensures var s := SerializeValue(heap, show, value, depth).value;
            && s.name == OwnName(heap, value) && s.message == OwnWords(heap, show, value)
            && (s.stack.Some? ==> s.stack.value == TruncateStack(heap(value.ref).stack.text))
            && (s.stack.Some? && |Split(heap(value.ref).stack.text)| <= 12 ==>
                  s.stack.value == heap(value.ref).stack.text)
            && ((value.Error? || value.Object?) && heap(value.ref).code.Text? ==>
                  s.code == Some(heap(value.ref).code.text))
            && ((value.Error? || value.Object?) && heap(value.ref).code.Number? ==>
                  s.code == Some(heap(value.ref).code.printed))
            && (s.code.Some? ==> heap(value.ref).code.Text? || heap(value.ref).code.Number?)
  {
  }

  /**
   Whatever the limit, summarizing fails exactly when serialization does, so for a value within
   three causes, or when the value itself carries no text and renders to nothing.
   */
  lemma FormatFailsIff(heap: Heap, show: Show, value: Value, maxChars: int)
    ensures FormatErrorReason(heap, show, value, maxChars).Err?
       <==> FailsWithin(heap, show, value, 3) || NoMessageFor(heap, show, value)
  {
    SerializeFailsIff(heap, show, value, 0);
    if SerializeValue(heap, show, value).Ok? {
      SerializedIsUsable(heap, show, value, 0);
    }
  }

  /** An error whose message is an object that renders to nothing: it serializes, and cannot be summarized. */
  lemma SilentMessageCannotBeSummarized(name: string, maxChars: int)
    ensures exists heap: Heap, show: Show ::
              && (forall v :: show(v).GivesNothing? <==> v == Object(1))
              && SerializeValue(heap, show, Error(0)).Ok?
              && FormatErrorReason(heap, show, Error(0), maxChars) == Err(NoMessage)
  {
    var heap: Heap := (ref: Ref) => Node(Text(name), Object(1), Undefined, Undefined, Undefined);
    var show: Show := v => if v == Object(1) then GivesNothing else Gives("");
    assert SerializeValue(heap, show, Error(0)).Ok?;
    assert FormatErrorReason(heap, show, Error(0), maxChars) == Err(NoMessage);
  }

  /** An error with a text of its own, caused by a function that throws when it is rendered: it cannot be serialized. */
  lemma HostileCauseCannotBeSerialized(name: string, message: string, raised: Value)
    ensures exists heap: Heap, show: Show ::
              && OwnText(heap, Error(0)) == Some(message)
              && SerializeValue(heap, show, Error(0)) == Err(Raised(raised))
  {
    var heap: Heap := (ref: Ref) => Node(Text(name), Text(message), Undefined, Undefined, Other(1));
    var show: Show := v => if v == Other(1) then Raises(raised) else Gives("");
    assert SerializeValue(heap, show, Other(1), 1) == Err(Raised(raised));
    assert SerializeValue(heap, show, Error(0)) == Err(Raised(raised));
  }

  // ------------------------------------------------------------ text bounds

  /** A stack keeps its first lines, has at most thirteen, and truncating it again changes nothing. */
  lemma TruncateStackIsBoundedAndIdempotent(stack: string)
    ensures var short := TruncateStack(stack);
            && |Split(short)| <= STACK_MAX_LINES + 1
            && (forall i :: 0 <= i < STACK_MAX_LINES && i < |Split(stack)| ==>
                  i < |Split(short)| && Split(short)[i] == Split(stack)[i])
            && (|Split(stack)| <= 12 ==> short == stack)
            && (|Split(stack)| > 12 ==> |Split(short)| == 13 && Split(short)[12] == "    ... stack truncated")
            && TruncateStack(short) == short
  {
    var lines := Split(stack);
    if |lines| > STACK_MAX_LINES {
      var kept := lines[..STACK_MAX_LINES] + [TRUNCATED];
      forall i | 0 <= i < |kept|
        ensures OneLine(kept[i])
      {
        assert kept[i] == if i < STACK_MAX_LINES then lines[i] else TRUNCATED;
      }
      SplitInvertsJoin(kept);
      assert kept[..STACK_MAX_LINES] == lines[..STACK_MAX_LINES];
    }
  }

  /** A reason is never empty: it starts with the name, and shows a message, where there is one, whole at its end. */
  lemma ReasonShowsNameAndMessage(heap: Heap, show: Show, value: Value)
    ensures var r, reason := SerializeValue(heap, show, value), Reason(heap, show, value);
            && (reason.Ok? <==> r.Ok? && r.value.message.Some?)
            && (reason.Ok? ==>
                  var name, message := r.value.name, r.value.message.value;
                  && reason.value != "" && name <= reason.value
                  && (message == "" <==> reason.value == name)
                  && |message| < |reason.value| && reason.value[|reason.value| - |message|..] == message)
  {
    if SerializeValue(heap, show, value).Ok? {
      SerializedIsUsable(heap, show, value, 0);
    }
  }

  /** The summary of a value, before it is cut: its name, and after a colon its words unless there are none. */
  lemma ReasonReads(heap: Heap, show: Show, value: Value)
    requires Reason(heap, show, value).Ok?
    ensures var reason := Reason(heap, show, value).value;
            && OwnWords(heap, show, value).Some?
            && (OwnWords(heap, show, value) == Some("") ==> reason == OwnName(heap, value))
            && (OwnWords(heap, show, value) != Some("") ==>
                  reason == OwnName(heap, value) + ": " + OwnWords(heap, show, value).value)
  {
    SerializedSaysWhatItIs(heap, show, value, 0);
  }

  /** A summary fits its limit exactly when the limit leaves room for the dots, or nothing is cut. */
  lemma ReasonFitsIff(heap: Heap, show: Show, value: Value, maxChars: int)
    ensures var whole, short := Reason(heap, show, value), FormatErrorReason(heap, show, value, maxChars);
            && (short.Ok? <==> whole.Ok?)
            && (short.Ok? ==> (|short.value| <= maxChars <==> maxChars >= 3 || |whole.value| <= maxChars))
  {
  }

  /**
   What cutting keeps: a summary is shortened exactly when it is longer than the limit, and then
   fills it; it still begins with the error's name whenever the limit leaves three characters
   more than that.
   */
  lemma CutReasonKeepsTheName(heap: Heap, show: Show, value: Value, maxChars: nat)
    requires maxChars >= 3
    ensures var whole, short := Reason(heap, show, value), FormatErrorReason(heap, show, value, maxChars);
            short.Ok? ==>
              && whole.Ok? && SerializeValue(heap, show, value).Ok?
              && (short.value == whole.value <==> |whole.value| <= maxChars)
              && (short.value != whole.value ==>
                    |short.value| == maxChars && short.value == whole.value[..maxChars - 3] + "...")
              && var name := SerializeValue(heap, show, value).value.name;
              (|name| + 3 <= maxChars ==> name <= short.value)
  {
    ReasonShowsNameAndMessage(heap, show, value);
  }
}
