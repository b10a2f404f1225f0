/**
 What becomes of an error in the processor's catch clause: it is classified, then serialized for
 the log, and only then rethrown. Either of the first two may throw, and then something else
 reaches the queue library in its place.
 */
module ErrorReporting {
  import opened Wrappers
  import opened Errors
  import opened SerializeError
  import Lifecycle = JobLifecycle

  /** What classification asks of an error. Its name is read unguarded, and reading it may throw. */
  datatype Class = Class(unrecoverable: bool, name: Result<ErrorName, Value>)

  type Classes = Ref -> Class

  predicate CannotBeClassified(classes: Classes, value: Value) {
    value.Opaque? || (value.Error? && !classes(value.ref).unrecoverable && classes(value.ref).name.Err?)
  }

  /** What the library makes of a value that reaches it. */
  function Seen(classes: Classes, value: Value): Thrown {
    match value
    case Error(ref) =>
      var name := match classes(ref).name case Ok(name) => name case Err(_) => OtherName("");
      Thrown(true, classes(ref).unrecoverable, name, "", Logged)
    case _ => Thrown(false, false, OtherName(""), "", Logged)
  }

  function SeenFault(classes: Classes, fault: Fault): Thrown {
    match fault
    case EngineError => Thrown(true, false, OtherName(""), "", Logged)
    case Raised(value) => Seen(classes, value)
  }

  function ReportOf(heap: Heap, show: Show, classes: Classes, value: Value): Report {
    if value.Opaque? then ClassifyThrows(SeenFault(classes, EngineError))
    else if CannotBeClassified(classes, value) then ClassifyThrows(Seen(classes, classes(value.ref).name.error))
    else match SerializeValue(heap, show, value)
      case Err(fault) => LogThrows(SeenFault(classes, fault))
      case Ok(_) => Logged
  }

  /** A thrown value as the catch clause and the library have to do with it. */
  function Caught(heap: Heap, show: Show, classes: Classes, value: Value): Thrown {
    Seen(classes, value).(report := ReportOf(heap, show, classes, value))
  }

  /** What was thrown is an unrecoverable error, by its class or by the name it was given. */
  predicate RaisedAsFinal(classes: Classes, fault: Fault) {
    && fault.Raised? && fault.value.Error?
    && (classes(fault.value.ref).unrecoverable || classes(fault.value.ref).name == Ok(UnrecoverableName))
  }

  /** Of all that can be thrown, the library treats only unrecoverable errors, by class or by name, as final. */
  lemma SeenAsFinalIff(classes: Classes, fault: Fault)
    ensures LibraryGivesUp(SeenFault(classes, fault))
       <==> RaisedAsFinal(classes, fault)
  {
  }

  /** A caught value is an error, and of a final class, exactly if it is; its name is the one it gives, if any. */
  lemma CaughtAsItIs(heap: Heap, show: Show, classes: Classes, value: Value)
    ensures var e := Caught(heap, show, classes, value);
            && (e.isError <==> value.Error?)
            && (e.unrecoverable <==> value.Error? && classes(value.ref).unrecoverable)
            && (value.Error? && classes(value.ref).name.Ok? ==> e.name == classes(value.ref).name.value)
            && (e.report.ClassifyThrows? <==> CannotBeClassified(classes, value))
            && (value.Opaque? ==> !LibraryGivesUp(Escapes(e)))
  {
  }

  /** An error is rethrown as it was exactly when it can be classified and nothing within three causes fails. */
  lemma RethrownIff(heap: Heap, show: Show, classes: Classes, value: Value)
    ensures ReportOf(heap, show, classes, value) == Logged
       <==> !CannotBeClassified(classes, value) && !FailsWithin(heap, show, value, 3)
  {
    SerializeFailsIff(heap, show, value, 0);
  }

  /**
   An error of one of the kit's final classes is meant never to be retried, and no retry of it is
   announced. It is retried exactly with an attempt left, when a value within three causes fails
   to serialize and what is thrown then is not an unrecoverable error itself.
   */
  lemma FinalErrorIsRetriedIff(
    heap: Heap, show: Show, classes: Classes, ref: Ref, attemptsMade: nat, attempts: Option<nat>)
    requires classes(ref).unrecoverable
    ensures var e, r := Caught(heap, show, classes, Error(ref)), SerializeValue(heap, show, Error(ref));
            && !Lifecycle.WillRetry(e, attemptsMade + 1, attempts)
            && (r.Err? <==> FailsWithin(heap, show, Error(ref), 3))
            && (Lifecycle.LibraryRetries(e, attemptsMade, attempts)
                <==> attemptsMade + 1 < Lifecycle.Allowed(attempts)
                     && r.Err? && !RaisedAsFinal(classes, r.error))
  {
    if SerializeValue(heap, show, Error(ref)).Err? {
      SeenAsFinalIff(classes, SerializeValue(heap, show, Error(ref)).error);
    }
    SerializeFailsIff(heap, show, Error(ref), 0);
  }

  /** A final error whose cause throws a plain error when it is rendered is retried, unannounced. */
  lemma HostileCauseIsRetried(name: string, message: string)
    ensures exists heap: Heap, show: Show, classes: Classes ::
              && classes(0).unrecoverable && OwnText(heap, Error(0)) == Some(message)
              && !Lifecycle.WillRetry(Caught(heap, show, classes, Error(0)), 1, Some(2))
              && Lifecycle.LibraryRetries(Caught(heap, show, classes, Error(0)), 0, Some(2))
  {
    var heap: Heap := (ref: Ref) => Node(Text(name), Text(message), Undefined, Undefined, Other(1));
    var show: Show := v => if v == Other(1) then Raises(Error(2)) else Gives("");
    var classes: Classes := (ref: Ref) => Class(ref == 0, Ok(if ref == 0 then NonRetryableName else OtherName("")));
    assert SerializeValue(heap, show, Other(1), 1) == Err(Raised(Error(2)));
    assert SerializeValue(heap, show, Error(0)) == Err(Raised(Error(2)));
    assert Caught(heap, show, classes, Error(0)).report == LogThrows(Seen(classes, Error(2)));
  }
}
