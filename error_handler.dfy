/**
  * The central error middleware: how a thrown error becomes the status code
  * and JSON body of the reply, the application's own error record, and the
  * handler for unknown routes.
  */
module ErrorHandler {
  import opened Wrappers

  /** The application's error: `new AppError(message, statusCode, errors = null)`. */
  datatype AppError = AppError(message: string, statusCode: int, errors: Option<seq<string>>, isOperational: bool)

  function NewAppError(message: string, statusCode: int, errors: Option<seq<string>>): (e: AppError)
    ensures e.message == message && e.statusCode == statusCode && e.errors == errors
    ensures e.isOperational
  {
    AppError(message, statusCode, errors, true)
  }

  /**
    * What the handler reads of a thrown error. `errors` is the error's own
    * `errors` property (for a schema validation failure, the per-field
    * messages in order, `None` when the error has no such property);
    * `keyValue` lists a duplicate-key error's keys in order (`None` when it
    * has no `keyValue`); `path` and `value` are a cast failure's, already
    * as text.
    */
  datatype Thrown = Thrown(
    name: string,
    message: Option<string>,
    statusCode: Option<int>,
    errors: Option<seq<string>>,
    code: Option<int>,
    keyValue: Option<seq<(string, string)>>,
    path: string,
    value: string)

  /** An `AppError` as the handler sees it: its `name` is that of `Error`. */
  function Raise(e: AppError): (t: Thrown)
    ensures t.name == "Error" && t.message == Some(e.message)
    ensures t.statusCode == Some(e.statusCode) && t.errors == e.errors && t.code.None?
  {
    Thrown("Error", Some(e.message), Some(e.statusCode), e.errors, None, None, "", "")
  }

  /** The reply: `success` is always false; `errors` appears only when there are some. */
  datatype ErrorBody = ErrorBody(status: int, success: bool, message: string, errors: Option<seq<string>>)

  /**
    * What the handler does: send a JSON reply, or throw itself, which leaves
    * the request to Express's built-in final handler (a 500 page).
    */
  datatype Outcome = Sent(body: ErrorBody) | Threw

  /** The local `error` the handler rewrites: a copy of the thrown error's status, message and errors. */
  datatype Working = Working(statusCode: Option<int>, message: Option<string>, errors: Option<seq<string>>)

  function FromApp(e: AppError): (w: Working)
    ensures w.statusCode == Some(e.statusCode) && w.message == Some(e.message) && w.errors == e.errors
  {
    Working(Some(e.statusCode), Some(e.message), e.errors)
  }

  const DefaultMessage := "Internal Server Error"

  /** `${field} '${value}' already exists` for the first key; with no key both read `undefined`. */
  function DuplicateMessage(keyValue: seq<(string, string)>): (m: string)
    ensures keyValue != [] ==> m == keyValue[0].0 + " '" + keyValue[0].1 + "' already exists"
    ensures keyValue == [] ==> m == "undefined 'undefined' already exists"
  {
    var (field, value) := if keyValue == [] then ("undefined", "undefined") else keyValue[0];
    field + " '" + value + "' already exists"
  }

  function CastMessage(path: string, value: string): string {
    "Invalid " + path + ": " + value
  }

  /** `error.statusCode || 500` and `error.message || "Internal Server Error"`. */
  function Finish(w: Working): (b: ErrorBody)
    ensures !b.success && b.errors == w.errors
    ensures b.status == (if w.statusCode.None? || w.statusCode.value == 0 then 500 else w.statusCode.value)
    ensures b.message == (if w.message.None? || w.message.value == "" then DefaultMessage else w.message.value)
    ensures b.status != 0 && b.message != ""
  {
    ErrorBody(
      if w.statusCode.None? || w.statusCode.value == 0 then 500 else w.statusCode.value,
      false,
      if w.message.None? || w.message.value == "" then DefaultMessage else w.message.value,
      w.errors)
  }

  /**
    * The handler throws when a validation error has no `errors` object
    * (`Object.values(undefined)`) or a duplicate-key error has no `keyValue`
    * (`Object.keys(undefined)`).
    */
  predicate HandlerThrows(err: Thrown) {
    || (err.name == "ValidationError" && err.errors.None?)
    || (err.code == Some(11000) && err.keyValue.None?)
  }

  /**
    * The mapping stated by precedence: of the checks that match, the one
    * written last decides, because each assigns the local error anew.
    * Token errors, then cast failures, then duplicate keys, then schema
    * validation; an error matching none keeps its own status and message.
    */
  function Classify(err: Thrown): (o: Outcome)
    ensures o.Threw? <==> HandlerThrows(err)
    ensures o.Sent? ==> !o.body.success && o.body.status != 0
    ensures !HandlerThrows(err) && err.name == "TokenExpiredError" ==>
      o == Sent(ErrorBody(401, false, "Token expired", None))
    ensures !HandlerThrows(err) && err.name == "JsonWebTokenError" ==>
      o == Sent(ErrorBody(401, false, "Invalid token", None))
    ensures !HandlerThrows(err) && err.name == "CastError" ==>
      o == Sent(ErrorBody(400, false, CastMessage(err.path, err.value), None))
    ensures !HandlerThrows(err) && err.name !in {"CastError", "JsonWebTokenError", "TokenExpiredError"} && err.code == Some(11000) ==>
      o == Sent(ErrorBody(400, false, DuplicateMessage(err.keyValue.value), None))
    ensures !HandlerThrows(err) && err.name == "ValidationError" && err.code != Some(11000) ==>
      o == Sent(ErrorBody(400, false, "Validation Error", err.errors))
    ensures err.name !in {"ValidationError", "CastError", "JsonWebTokenError", "TokenExpiredError"} && err.code != Some(11000) ==>
      o == Sent(Finish(Working(err.statusCode, err.message, err.errors)))
  {
    if HandlerThrows(err) then Threw
    else if err.name == "TokenExpiredError" then Sent(Finish(FromApp(NewAppError("Token expired", 401, None))))
    else if err.name == "JsonWebTokenError" then Sent(Finish(FromApp(NewAppError("Invalid token", 401, None))))
    else if err.name == "CastError" then Sent(Finish(FromApp(NewAppError(CastMessage(err.path, err.value), 400, None))))
    else if err.code == Some(11000) then Sent(Finish(FromApp(NewAppError(DuplicateMessage(err.keyValue.value), 400, None))))
    else if err.name == "ValidationError" then Sent(Finish(FromApp(NewAppError("Validation Error", 400, err.errors))))
    else Sent(Finish(Working(err.statusCode, err.message, err.errors)))
  }

  /**
    * `errorHandler`: copy the error, then run the five independent checks
    * in their written order, each replacing the local error when it
    * matches, and answer from whatever is left.
    */
  method Handle(err: Thrown) returns (o: Outcome)
    ensures o == Classify(err)
  {
    var error := Working(err.statusCode, err.message, err.errors);
    if err.name == "ValidationError" {
      if err.errors.None? {
        return Threw;
      }
      error := FromApp(NewAppError("Validation Error", 400, err.errors));
    }
    if err.code == Some(11000) {
      if err.keyValue.None? {
        return Threw;
      }
      error := FromApp(NewAppError(DuplicateMessage(err.keyValue.value), 400, None));
    }
    if err.name == "CastError" {
      error := FromApp(NewAppError(CastMessage(err.path, err.value), 400, None));
    }
    if err.name == "JsonWebTokenError" {
      error := FromApp(NewAppError("Invalid token", 401, None));
    }
    if err.name == "TokenExpiredError" {
      error := FromApp(NewAppError("Token expired", 401, None));
    }
    o := Sent(Finish(error));
  }

  /** The statuses the handler can produce of its own: 400, 401, or the default 500. */
  lemma MappedStatuses(err: Thrown)
    ensures var o := Classify(err);
      o.Sent? ==> o.body.status in {400, 401, 500} || (err.statusCode.Some? && o.body.status == err.statusCode.value)
  {
  }

  /** An application error with a message and a non-zero status passes through unchanged. */
  lemma AppErrorPassesThrough(e: AppError)
    requires e.message != "" && e.statusCode != 0
    ensures Classify(Raise(e)) == Sent(ErrorBody(e.statusCode, false, e.message, e.errors))
  {
  }

  /** Without a message or a status the defaults apply. */
  lemma AppErrorDefaults(errors: Option<seq<string>>)
    ensures Classify(Raise(NewAppError("", 0, errors))) == Sent(ErrorBody(500, false, DefaultMessage, errors))
  {
  }

  /** A validation failure that also carries the duplicate-key code is reported as a duplicate. */
  lemma LaterCheckWins(errors: seq<string>, field: string, value: string)
    ensures
      var err := Thrown("ValidationError", None, None, Some(errors), Some(11000), Some([(field, value)]), "", "");
      Classify(err) == Sent(ErrorBody(400, false, field + " '" + value + "' already exists", None))
  {
  }

  /**
    * A duplicate-key error without `keyValue` makes the handler throw, even
    * when a later check (a token error) would otherwise have decided.
    */
  lemma MissingKeyValueThrows(name: string, errors: seq<string>)
    ensures Classify(Thrown(name, None, None, Some(errors), Some(11000), None, "", "")) == Threw
  {
  }

  // ---------------------------------------------------------------------------
  // notFound

  /** `notFound`: a 404 application error naming the requested URL. */
  function RouteNotFound(url: string): (e: AppError)
    ensures e.statusCode == 404 && e.errors.None? && e.isOperational
    ensures e.message == "Route not found: " + url
  {
    NewAppError("Route not found: " + url, 404, None)
  }

  /** An unknown route is answered 404 with its URL in the message and no error list. */
  lemma UnknownRouteReply(url: string)
    ensures Classify(Raise(RouteNotFound(url))) == Sent(ErrorBody(404, false, "Route not found: " + url, None))
  {
  }
}
