/** The back end's exception-to-response mapping. Every handler but the
    validation one answers with an ErrorResponse body whose `status` is the
    HTTP status it returns; the validation handler answers 400 with a flat
    field-to-message map. `now` is the response's timestamp, rendered as text. */
module GlobalExceptionHandler {
  import opened Wrappers
  import opened Json
  import opened Dtos

  /** The exceptions the handler distinguishes. `OtherException` is any other
      exception; its `getMessage()` may be null. */
  datatype Exception =
    | UserAlreadyExists(message: string)
    | EntityNotFound(message: string)
    | MethodArgumentNotValid(fieldErrors: seq<FieldError>)
    | BadCredentials(message: string)
    | InternalAuthenticationService(message: string)
    | MethodNotSupported(message: string)
    | NoHandlerFound(requestUrl: string)
    | OtherException(detail: Option<string>)

  datatype ResponseBody =
    | ErrorResponse(timestamp: string, status: int, error: string, message: Option<string>)
    | FieldErrorMap(errors: map<string, string>)

  datatype HandlerResponse = HandlerResponse(httpStatus: int, body: ResponseBody)

  const BadRequest := 400
  const Unauthorized := 401
  const NotFound := 404
  const MethodNotAllowed := 405
  const Conflict := 409
  const InternalServerError := 500

  const InvalidCredentials := "Invalid email or password"

  predicate IsSecurityException(ex: Exception)
  {
    ex.BadCredentials? || ex.InternalAuthenticationService?
  }

  /** The map `handleValidation` builds: each field error, in binding-result
      order, stored under its field, so a later error on a field replaces an
      earlier one. */
  function FieldErrorsToMap(fieldErrors: seq<FieldError>): (m: map<string, string>)
    ensures forall f :: f in m <==> exists i :: 0 <= i < |fieldErrors| && fieldErrors[i].field == f
  {
    if fieldErrors == [] then map[]
    else
      var prefix := fieldErrors[..|fieldErrors| - 1];
      var last := fieldErrors[|fieldErrors| - 1];
      var m := FieldErrorsToMap(prefix);
      assert forall i :: 0 <= i < |prefix| ==> prefix[i] == fieldErrors[i];
      m[last.field := last.defaultMessage]
  }

  /** Of several errors on one field, the map keeps the message of the last. */
  lemma {:induction false} LastErrorOnFieldWins(fieldErrors: seq<FieldError>, i: nat)
    requires i < |fieldErrors|
    requires forall j :: i < j < |fieldErrors| ==> fieldErrors[j].field != fieldErrors[i].field
    ensures fieldErrors[i].field in FieldErrorsToMap(fieldErrors)
    ensures FieldErrorsToMap(fieldErrors)[fieldErrors[i].field] == fieldErrors[i].defaultMessage
  {
    var n := |fieldErrors|;
    if i < n - 1 {
      var prefix := fieldErrors[..n - 1];
      assert prefix[i] == fieldErrors[i];
      LastErrorOnFieldWins(prefix, i);
    }
  }

  /** `handleValidation`, filling the map in place one field error at a time. */
  method HandleValidation(fieldErrors: seq<FieldError>) returns (errors: map<string, string>)
    ensures errors == FieldErrorsToMap(fieldErrors)
  {
    errors := map[];
    var i := 0;
    while i < |fieldErrors|
      invariant 0 <= i <= |fieldErrors|
      invariant errors == FieldErrorsToMap(fieldErrors[..i])
    {
      assert fieldErrors[..i + 1][..i] == fieldErrors[..i];
      errors := errors[fieldErrors[i].field := fieldErrors[i].defaultMessage];
      i := i + 1;
    }
    assert fieldErrors[..i] == fieldErrors;
  }

  /** The handler Spring picks for an exception, and what it answers. */
  function Handle(ex: Exception, now: string): (r: HandlerResponse)
    ensures r.body.ErrorResponse? ==> r.body.status == r.httpStatus
    ensures r.body.FieldErrorMap? <==> ex.MethodArgumentNotValid?
    ensures r.httpStatus == BadRequest <==> ex.MethodArgumentNotValid?
    ensures r.httpStatus in {400, 401, 404, 405, 409, 500}
  {
    match ex
    case UserAlreadyExists(message) =>
      HandlerResponse(Conflict, ErrorResponse(now, Conflict, "Data Conflict", Some(message)))
    case EntityNotFound(message) =>
      HandlerResponse(NotFound, ErrorResponse(now, NotFound, "Not Found", Some(message)))
    case MethodArgumentNotValid(fieldErrors) =>
      HandlerResponse(BadRequest, FieldErrorMap(FieldErrorsToMap(fieldErrors)))
    case BadCredentials(_) =>
      HandlerResponse(Unauthorized, ErrorResponse(now, Unauthorized, "Authentication Failed", Some(InvalidCredentials)))
    case InternalAuthenticationService(_) =>
      HandlerResponse(Unauthorized, ErrorResponse(now, Unauthorized, "Authentication Failed", Some(InvalidCredentials)))
    case MethodNotSupported(message) =>
      HandlerResponse(MethodNotAllowed, ErrorResponse(now, MethodNotAllowed, "Method Not Allowed", Some(message)))
    case NoHandlerFound(url) =>
      HandlerResponse(NotFound, ErrorResponse(now, NotFound, "Resource Not Found",
                                              Some("The path '" + url + "' does not exist.")))
    case OtherException(detail) =>
      HandlerResponse(InternalServerError, ErrorResponse(now, InternalServerError, "Server Error", detail))
  }

  /** The JSON object an ErrorResponse body is written as, in its field order;
      a null message is written as `null`. */
  function ErrorResponseJson(body: ResponseBody): (o: Assoc<JsValue>)
    requires body.ErrorResponse?
    ensures HasKey(o, "status") && HasKey(o, "error") && HasKey(o, "message")
    ensures Get(o, "status") == Some(JNum(body.status))
    ensures Get(o, "error") == Some(JStr(body.error))
    ensures Get(o, "message") == Some(if body.message.Some? then JStr(body.message.value) else JNull)
  {
    var o: Assoc<JsValue> := [
      ("timestamp", JStr(body.timestamp)),
      ("status", JNum(body.status)),
      ("error", JStr(body.error)),
      ("message", if body.message.Some? then JStr(body.message.value) else JNull)];
    assert o[1].0 == "status" && o[2].0 == "error" && o[3].0 == "message";
    o
  }

  /** `o` is one JSON rendering of the map: the same keys, each with its
      message as a JSON string, in some order. */
  ghost predicate Renders(o: Assoc<JsValue>, m: map<string, string>)
  {
    && (forall k :: HasKey(o, k) <==> k in m)
    && (forall i :: 0 <= i < |o| ==> o[i].0 in m && o[i].1 == JStr(m[o[i].0]))
  }

  // ---- The handler table ----

  lemma DuplicateEmailIsConflict(message: string, now: string)
    ensures Handle(UserAlreadyExists(message), now)
         == HandlerResponse(409, ErrorResponse(now, 409, "Data Conflict", Some(message)))
  {
  }

  lemma MissingEntityIsNotFound(message: string, now: string)
    ensures Handle(EntityNotFound(message), now)
         == HandlerResponse(404, ErrorResponse(now, 404, "Not Found", Some(message)))
  {
  }

  /** A failed validation answers 400 with one key per failing field. */
  lemma ValidationIsFieldMap(fieldErrors: seq<FieldError>, now: string)
    ensures var r := Handle(MethodArgumentNotValid(fieldErrors), now);
      && r.httpStatus == 400 && r.body.FieldErrorMap?
      && (forall f :: f in r.body.errors <==> exists i :: 0 <= i < |fieldErrors| && fieldErrors[i].field == f)
  {
  }

  /** Both security exceptions give the same fixed 401 answer, whatever their
      message. */
  lemma SecurityFailuresAreUniform(ex1: Exception, ex2: Exception, now: string)
    requires IsSecurityException(ex1) && IsSecurityException(ex2)
    ensures Handle(ex1, now) == Handle(ex2, now)
    ensures Handle(ex1, now) == HandlerResponse(401, ErrorResponse(now, 401, "Authentication Failed", Some(InvalidCredentials)))
  {
  }

  lemma UnsupportedMethodIs405(message: string, now: string)
    ensures Handle(MethodNotSupported(message), now)
         == HandlerResponse(405, ErrorResponse(now, 405, "Method Not Allowed", Some(message)))
  {
  }

  lemma UnknownRouteIsNotFound(url: string, now: string)
    ensures Handle(NoHandlerFound(url), now)
         == HandlerResponse(404, ErrorResponse(now, 404, "Resource Not Found", Some("The path '" + url + "' does not exist.")))
  {
  }

  lemma OtherExceptionIsServerError(detail: Option<string>, now: string)
    ensures Handle(OtherException(detail), now)
         == HandlerResponse(500, ErrorResponse(now, 500, "Server Error", detail))
  {
  }
}
