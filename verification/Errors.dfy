/** What the kit and the queue library can tell about a thrown value. */
module Errors {

  /** The names the code gives or compares with, and all others. */
  datatype ErrorName =
    | UnrecoverableName
    | NonRetryableName
    | PayloadValidationName
    | UnknownJobName
    | JobTimeoutName
    | JobCancelledName
    | OtherName(name: string)

  /** `unrecoverable`: an instance of the library's `UnrecoverableError`, which the kit's final errors extend. */
  datatype Thrown = Thrown(isError: bool, unrecoverable: bool, name: ErrorName, detail: string, report: Report)

  /**
   How the processor's catch clause gets on with an error before rethrowing it: it may throw
   something else instead, on classifying the error or on serializing it for the log.
   */
  datatype Report = Logged | ClassifyThrows(instead: Thrown) | LogThrows(instead: Thrown)

  function PayloadValidationError(message: string): Thrown {
    Thrown(true, true, PayloadValidationName, message, Logged)
  }

  function UnknownJobError(jobName: string): Thrown { Thrown(true, true, UnknownJobName, jobName, Logged) }

  function JobTimeoutError(): Thrown { Thrown(true, false, JobTimeoutName, "", Logged) }

  function JobCancelledError(reason: string): Thrown { Thrown(true, false, JobCancelledName, reason, Logged) }

  /** What leaves the catch clause, and so what the queue library sees. */
  function Escapes(e: Thrown): Thrown {
    match e.report
    case Logged => e
    case ClassifyThrows(instead) => instead
    case LogThrows(instead) => instead
  }

  predicate KitFinalName(name: ErrorName) {
    name == NonRetryableName || name == PayloadValidationName || name == UnknownJobName
  }

  predicate IsNonRetryable(e: Thrown) {
    e.unrecoverable || (e.isError && (e.name == UnrecoverableName || KitFinalName(e.name)))
  }

  /** The library's own question: is this an `UnrecoverableError`, by class or by name? */
  predicate LibraryGivesUp(e: Thrown) {
    e.unrecoverable || (e.isError && e.name == UnrecoverableName)
  }

  /** An error that only carries the name of one of the kit's final classes. */
  predicate OnlyNamedFinal(e: Thrown) {
    e.isError && !e.unrecoverable && KitFinalName(e.name)
  }
}
