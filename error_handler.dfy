/**
 * `middleware/errorHandler.ts`: the application's own `AppError` and the
 * last-resort handler that turns any error reaching it into a status code
 * and a JSON body, by an ordered chain of tests on the error's class, its
 * message and its name.
 */
module ErrorHandler {
  import opened Common
  import opened Text

  /** An `AppError`: an operational error that carries its own status code. */
  datatype AppError = AppError(message: string, statusCode: int, isOperational: bool)

  /** `new AppError(message, statusCode)`. */
  function NewAppError(message: string, statusCode: int): (e: AppError)
    ensures e.isOperational && e.statusCode == statusCode && e.message == message
  {
    AppError(message, statusCode, true)
  }

  /**
   * What reaches the handler: an `AppError`, or any other error with its
   * `name` and its possibly absent `message` (`err.message?.…`).
   */
  datatype Failure =
    | Operational(app: AppError, stack: string)
    | Thrown(name: string, message: Option<string>, stack: string)

  /** The JSON body: `error`, and `details` or `stack` when present. */
  datatype ErrorBody = ErrorBody(error: Option<string>, details: Option<string>, stack: Option<string>)

  /** `err.message?.includes(text)`: false when there is no message. */
  predicate MessageHas(message: Option<string>, text: string) {
    message.Some? && Includes(message.value, text)
  }

  const FileTooLarge := "File too large"
  const InvalidFileType := "Invalid file type"
  const UniqueFailed := "UNIQUE constraint failed"

  /** The stack is shown everywhere but in production. */
  function StackUnless(production: bool, stack: string): Option<string> {
    if production then None else Some(stack)
  }

  /**
   * `errorHandler`: the first matching rule wins: an `AppError`, then the
   * upload errors, the `UNIQUE` constraint, validation and token errors,
   * and finally 500.
   */
  function HandleError(err: Failure, production: bool): (r: (int, ErrorBody))
    ensures err.Operational? ==>
      r == (err.app.statusCode, ErrorBody(Some(err.app.message), None, StackUnless(production, err.stack)))
    ensures err.Thrown? && MessageHas(err.message, FileTooLarge) ==>
      r == (400, ErrorBody(Some(FileTooLarge), None, None))
    ensures err.Thrown? && !MessageHas(err.message, FileTooLarge) && MessageHas(err.message, InvalidFileType) ==>
      r == (400, ErrorBody(err.message, None, None))
    ensures err.Thrown? && !MessageHas(err.message, FileTooLarge) && !MessageHas(err.message, InvalidFileType) &&
            !MessageHas(err.message, UniqueFailed) && err.name == "ValidationError" ==>
      r == (400, ErrorBody(Some("Validation failed"), err.message, None))
    ensures err.Thrown? && r.0 == 500 <==>
      err.Thrown? && !MessageHas(err.message, FileTooLarge) && !MessageHas(err.message, InvalidFileType) &&
      !MessageHas(err.message, UniqueFailed) &&
      err.name !in {"ValidationError", "JsonWebTokenError", "TokenExpiredError"}
    ensures err.Thrown? && r.0 == 500 ==>
      r.1 == ErrorBody(if production then Some("Internal server error") else err.message, None, StackUnless(production, err.stack))
    ensures err.Thrown? ==> r.0 == 400 || r.0 == 401 || r.0 == 500
    ensures err.Thrown? && r.0 == 401 <==>
      err.Thrown? && !MessageHas(err.message, FileTooLarge) && !MessageHas(err.message, InvalidFileType) &&
      !MessageHas(err.message, UniqueFailed) && err.name != "ValidationError" &&
      (err.name == "JsonWebTokenError" || err.name == "TokenExpiredError")
  {
    match err
    case Operational(app, stack) =>
      (app.statusCode, ErrorBody(Some(app.message), None, StackUnless(production, stack)))
    case Thrown(name, message, stack) =>
      if MessageHas(message, FileTooLarge) then (400, ErrorBody(Some(FileTooLarge), None, None))
      else if MessageHas(message, InvalidFileType) then (400, ErrorBody(message, None, None))
      else if MessageHas(message, UniqueFailed) then
        var field := if Includes(message.value, "email") then "email" else "username";
        (400, ErrorBody(Some("This " + field + " is already in use"), None, None))
      else if name == "ValidationError" then (400, ErrorBody(Some("Validation failed"), message, None))
      else if name == "JsonWebTokenError" then (401, ErrorBody(Some("Invalid token"), None, None))
      else if name == "TokenExpiredError" then (401, ErrorBody(Some("Token expired"), None, None))
      else (500, ErrorBody(if production then Some("Internal server error") else message, None, StackUnless(production, stack)))
  }

  /**
   * A `UNIQUE` failure not caught by the upload rules names `email` when its
   * message mentions email, `username` otherwise, and is a 400 whatever the
   * error's name.
   */
  lemma UniqueViolationNamesField(name: string, message: string, stack: string, production: bool)
    requires !Includes(message, FileTooLarge) && !Includes(message, InvalidFileType) && Includes(message, UniqueFailed)
    ensures HandleError(Thrown(name, Some(message), stack), production) ==
      (400, ErrorBody(Some("This " + (if Includes(message, "email") then "email" else "username") + " is already in use"), None, None))
  {
  }

  /** The class test comes first: an `AppError` keeps its own code whatever its message says. */
  lemma AppErrorWinsOverMessage(message: string, statusCode: int, stack: string, production: bool)
    requires Includes(message, FileTooLarge) || Includes(message, UniqueFailed)
    ensures HandleError(Operational(NewAppError(message, statusCode), stack), production).0 == statusCode
  {
  }

  /** In production no answer carries a stack, and a 500 says only "Internal server error". */
  lemma ProductionHidesInternals(err: Failure)
    ensures HandleError(err, true).1.stack.None?
    ensures err.Thrown? && HandleError(err, true).0 == 500 ==>
      HandleError(err, true).1 == ErrorBody(Some("Internal server error"), None, None)
  {
  }

  /** Token errors are 401 with their own message unless a message rule matched first. */
  lemma TokenErrors(message: Option<string>, stack: string, production: bool)
    requires !MessageHas(message, FileTooLarge) && !MessageHas(message, InvalidFileType) && !MessageHas(message, UniqueFailed)
    ensures HandleError(Thrown("JsonWebTokenError", message, stack), production) == (401, ErrorBody(Some("Invalid token"), None, None))
    ensures HandleError(Thrown("TokenExpiredError", message, stack), production) == (401, ErrorBody(Some("Token expired"), None, None))
  {
  }
}
