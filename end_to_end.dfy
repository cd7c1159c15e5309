/** What the front end makes of the back end's answers: each response the
    exception handler writes, read back by `handleApiError` and the error-page
    decision. */
module EndToEnd {
  import opened Wrappers
  import opened Json
  import opened Dtos
  import opened ErrorHandler
  import opened GlobalExceptionHandler
  import opened TaskService

  /** The value the front end catches for a handler response written as an
      ErrorResponse. */
  function Received(h: HandlerResponse): Thrown
    requires h.body.ErrorResponse?
  {
    Response(h.httpStatus, Object(ErrorResponseJson(h.body)))
  }

  /** Every ErrorResponse is read as a plain error carrying the HTTP status,
      the handler's `error` text and its message (`null` when it had none). */
  lemma ErrorResponsesAreErrors(ex: Exception, now: string)
    requires Handle(ex, now).body.ErrorResponse?
    ensures var h := Handle(ex, now); var e := Classify(Received(h));
      && e.kind == Error
      && e.status == Some(JNum(h.httpStatus))
      && e.error == Some(JStr(h.body.error))
      && e.message == Some(if h.body.message.Some? then JStr(h.body.message.value) else JNull)
      && e.validationErrors.None?
  {
    var h := Handle(ex, now);
    var o := ErrorResponseJson(h.body);
    assert h.httpStatus != 400;
    assert HasKey(o, "message");
    assert Truthy(Get(o, "status"));
  }

  /** A missing or foreign project or task sends the user to the not-found
      page, with the service's message. */
  lemma MissingEntityShowsNotFoundPage(message: string, now: string)
    ensures var e := Classify(Received(Handle(EntityNotFound(message), now)));
      GetErrorPagePath(e) == Some("/404") && e.message == Some(JStr(message))
  {
    ErrorResponsesAreErrors(EntityNotFound(message), now);
  }

  lemma AccessDeniedShowsNotFoundPage(now: string)
    ensures GetErrorPagePath(Classify(Received(Handle(EntityNotFound(TaskAccessDenied), now)))) == Some("/404")
    ensures GetErrorPagePath(Classify(Received(Handle(EntityNotFound(ProjectAccessDenied), now)))) == Some("/404")
  {
    MissingEntityShowsNotFoundPage(TaskAccessDenied, now);
    MissingEntityShowsNotFoundPage(ProjectAccessDenied, now);
  }

  /** An exception no handler names sends the user to the server-error page. */
  lemma UnhandledShowsServerErrorPage(detail: Option<string>, now: string)
    ensures GetErrorPagePath(Classify(Received(Handle(OtherException(detail), now)))) == Some("/500")
  {
    ErrorResponsesAreErrors(OtherException(detail), now);
  }

  /** A failed login is shown inline, as the uniform credentials message. */
  lemma SecurityFailureShownInline(ex: Exception, now: string)
    requires IsSecurityException(ex)
    ensures var e := Classify(Received(Handle(ex, now)));
      && e.status == Some(JNum(401))
      && GetErrorPagePath(e) == None
      && FormatApiError(e) == JStr(InvalidCredentials)
  {
    SecurityFailuresAreUniform(ex, ex, now);
    ErrorResponsesAreErrors(ex, now);
  }

  /** A duplicate registration is shown inline with the service's message. */
  lemma ConflictShownInline(message: string, now: string)
    requires message != ""
    ensures var e := Classify(Received(Handle(UserAlreadyExists(message), now)));
      GetErrorPagePath(e) == None && FormatApiError(e) == JStr(message)
  {
    ErrorResponsesAreErrors(UserAlreadyExists(message), now);
  }

  /** The field map of a failed validation, written in any key order, is read
      back as a validation error with exactly the map's fields and messages,
      unless the map has fields named both `error` and `message`. */
  lemma FieldMapReadBack(fieldErrors: seq<FieldError>, now: string, o: Assoc<JsValue>)
    requires Renders(o, Handle(MethodArgumentNotValid(fieldErrors), now).body.errors)
    requires !(HasKey(o, "error") && HasKey(o, "message"))
    ensures var m := FieldErrorsToMap(fieldErrors); var e := Classify(Response(400, Object(o)));
      && e.kind == Validation
      && e.status == Some(JNum(400))
      && e.validationErrors.Some?
      && |e.validationErrors.value| == |o|
      && (forall k :: HasKey(e.validationErrors.value, k) <==> k in m)
      && (forall i :: 0 <= i < |o| ==> e.validationErrors.value[i] == (o[i].0, m[o[i].0]))
  {
    var m := FieldErrorsToMap(fieldErrors);
    var ve := StringifyEntries(o);
    forall i | 0 <= i < |o|
      ensures ve[i] == (o[i].0, m[o[i].0])
    {
      assert o[i].1 == JStr(m[o[i].0]);
    }
    forall k
      ensures HasKey(ve, k) <==> k in m
    {
      if HasKey(ve, k) {
        var i :| 0 <= i < |ve| && ve[i].0 == k;
        assert o[i].0 == k;
      }
      if k in m {
        assert HasKey(o, k);
        var i :| 0 <= i < |o| && o[i].0 == k;
        assert ve[i].0 == k;
      }
    }
  }

  /** The edit-project request with the title "ab" fails one constraint
      (`ShortTitleExample`); that one field error becomes a 400 answer holding
      a one-entry field map... */
  lemma ShortProjectTitleAnswer(now: string)
    ensures var h := Handle(MethodArgumentNotValid([FieldError("title", TitleSize)]), now);
      && h.httpStatus == 400
      && h.body == FieldErrorMap(map["title" := TitleSize])
  {
    var fe := [FieldError("title", TitleSize)];
    assert fe[..0] == [];
  }

  /** ...which the project page shows inline as one capitalised line. */
  lemma ShortProjectTitleDisplayed()
    ensures var e := Classify(Response(400, Object([("title", JStr(TitleSize))])));
      && e.kind == Validation
      && GetErrorPagePath(e) == None
      && FormatApiError(e) == JStr("Title: " + TitleSize)
  {
    var o: Assoc<JsValue> := [("title", JStr(TitleSize))];
    assert o[0].0 != "error" by { assert o[0].0[0] != "error"[0]; }
    assert !IsErrorResponseShape(o);
    var ve := StringifyEntries(o);
    assert ve == [("title", TitleSize)];
    var e := Classify(Response(400, Object(o)));
    assert e == ApiError(Validation, Some(JNum(400)), Some(JStr(ValidationMessage)), Some(ve), None);
    assert Capitalize("title") == "Title";
    assert FormatValidationErrors(ve) == Line(ve[0]);
    assert "Title" + ": " == "Title: ";
  }
}
