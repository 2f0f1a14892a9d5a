/**
  Shared value wrappers and the error kinds of the framework.

  `Error` has one constructor per exception class of slash_slack/exceptions.py;
  every operation that raises one of them returns it through `Result` instead.
 */
module Common {

  datatype Option<+T> = None | Some(value: T) {
    function GetOr(default: T): T {
      match this
      case Some(v) => v
      case None => default
    }
  }

  datatype Result<+R, +E> = Success(value: R) | Failure(error: E)

  /** The exceptions the framework raises at start-up and at registration. */
  datatype Error =
    | NoSigningSecret
    | DuplicateCommand
    | MultipleSlashSlackRequestParameters
    | ParamAfterUnknownLengthList
    | InvalidDefaultValue
    | InvalidAnnotation
}
