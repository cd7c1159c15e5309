/** The front end's error classifier (`handleApiError`), its display helpers
    (`formatValidationErrors`, `formatApiError`) and the error-page decision
    (`getErrorPagePath`). A caught value is one of three shapes; the classifier
    sorts it into an `ApiError` by ordered case analysis and never throws. */
module ErrorHandler {
  import opened Wrappers
  import opened Json

  /** A response body as the classifier sees it: `data && typeof data === 'object'`
      holds exactly for `Object`. */
  datatype Body = NotObject | Object(fields: Assoc<JsValue>)

  /** The caught value: an axios error with a response, an axios error whose
      request got no response, or anything else (an `Error` carries its message). */
  datatype Thrown =
    | Response(status: int, data: Body)
    | RequestOnly
    | Other(errorMessage: Option<string>)

  datatype ApiErrorType = Validation | Error

  /** The `ApiError` record. `status`, `message` and `error` are copied from the
      body without checking their JSON type, so they hold a `JsValue`; `None` is
      a property that is absent (undefined). */
  datatype ApiError = ApiError(
    kind: ApiErrorType,
    status: Option<JsValue>,
    message: Option<JsValue>,
    validationErrors: Option<Assoc<string>>,
    error: Option<JsValue>)

  const ValidationMessage := "Please fix the validation errors"
  const NetworkMessage := "Unable to reach the server. Please check your internet connection."
  const UnexpectedMessage := "An unexpected error occurred"
  const DisplayFallback := "An error occurred"
  const GenericStatusMessage := "An error occurred. Please try again."

  /** The status codes that have a message of their own. */
  const KnownStatuses: set<int> := {400, 401, 403, 404, 409, 500, 503}

  /** `getDefaultErrorMessage`. */
  function DefaultMessage(status: int): (m: string)
    ensures m != ""
    ensures m == GenericStatusMessage <==> status !in KnownStatuses
  {
    match status
    case 400 => "Bad request. Please check your input."
    case 401 => "Authentication failed. Please login again."
    case 403 => "You do not have permission to perform this action."
    case 404 => "The requested resource was not found."
    case 409 => "A conflict occurred. The resource may already exist."
    case 500 => "Server error. Please try again later."
    case 503 => "Service temporarily unavailable. Please try again later."
    case _ => GenericStatusMessage
  }

  /** The validation map built from a 400 body: every entry, in entry order, with
      its value passed through `String(value)`. */
  function StringifyEntries(o: Assoc<JsValue>): (r: Assoc<string>)
    ensures |r| == |o|
    ensures forall i :: 0 <= i < |o| ==> r[i] == (o[i].0, ToJsString(o[i].1))
  {
    if o == [] then []
    else
      var rest: Assoc<JsValue> := o[1..];
      var tail := StringifyEntries(rest);
      var r := [(o[0].0, ToJsString(o[0].1))] + tail;
      assert forall i :: 0 < i < |r| ==> r[i].0 == o[i].0;
      r
  }

  /** The body holds both `error` and `message`: it is shaped like the back
      end's ErrorResponse. */
  predicate IsErrorResponseShape(o: Assoc<JsValue>)
  {
    HasKey(o, "error") && HasKey(o, "message")
  }

  /** `handleApiError` as a function: the first matching case wins. */
  function Classify(t: Thrown): (e: ApiError)
    ensures e.kind == Validation <==> e.validationErrors.Some?
    ensures e.kind == Validation ==> e.status == Some(JNum(400)) && e.error.None?
    ensures t.Response? ==> e.status.Some? || (t.data.Object? && !HasKey(t.data.fields, "status"))
    ensures !t.Response? ==> e.status.None? && e.message.Some? && e.message.value.JStr?
  {
    match t
    case Response(status, data) =>
      if status == 400 && data.Object? then
        var o := data.fields;
        if IsErrorResponseShape(o) then
          ApiError(Error, Get(o, "status"), Get(o, "message"), None, Get(o, "error"))
        else
          ApiError(Validation, Some(JNum(400)), Some(JStr(ValidationMessage)), Some(StringifyEntries(o)), None)
      else if data.Object? && HasKey(data.fields, "message") then
        var o := data.fields;
        var bodyStatus := Get(o, "status");
        ApiError(Error, if Truthy(bodyStatus) then bodyStatus else Some(JNum(status)),
                 Get(o, "message"), None, Get(o, "error"))
      else
        ApiError(Error, Some(JNum(status)), Some(JStr(DefaultMessage(status))), None, None)
    case RequestOnly =>
      ApiError(Error, None, Some(JStr(NetworkMessage)), None, None)
    case Other(m) =>
      ApiError(Error, None, Some(JStr(if m.Some? then m.value else UnexpectedMessage)), None, None)
  }

  /** The `forEach` over a 400 body that fills the validation map in place,
      one entry at a time. */
  method CollectValidationErrors(o: Assoc<JsValue>) returns (validationErrors: Assoc<string>)
    ensures validationErrors == StringifyEntries(o)
  {
    validationErrors := [];
    var i := 0;
    while i < |o|
      invariant 0 <= i <= |o|
      invariant |validationErrors| == i
      invariant forall j :: 0 <= j < i ==> validationErrors[j] == (o[j].0, ToJsString(o[j].1))
    {
      assert !HasKey(validationErrors, o[i].0);
      validationErrors := Put(validationErrors, o[i].0, ToJsString(o[i].1));
      i := i + 1;
    }
  }

  /** `handleApiError`, step by step: it computes what the classifier states. */
  method HandleApiError(t: Thrown) returns (e: ApiError)
    ensures e == Classify(t)
  {
    if t.Response? {
      var status, data := t.status, t.data;
      if status == 400 && data.Object? {
        var o := data.fields;
        if IsErrorResponseShape(o) {
          return ApiError(Error, Get(o, "status"), Get(o, "message"), None, Get(o, "error"));
        }
        var validationErrors := CollectValidationErrors(o);
        return ApiError(Validation, Some(JNum(400)), Some(JStr(ValidationMessage)), Some(validationErrors), None);
      }
      if data.Object? && HasKey(data.fields, "message") {
        var bodyStatus := Get(data.fields, "status");
        return ApiError(Error, if Truthy(bodyStatus) then bodyStatus else Some(JNum(status)),
                        Get(data.fields, "message"), None, Get(data.fields, "error"));
      }
      return ApiError(Error, Some(JNum(status)), Some(JStr(DefaultMessage(status))), None, None);
    }
    if t.RequestOnly? {
      return ApiError(Error, None, Some(JStr(NetworkMessage)), None, None);
    }
    return ApiError(Error, None, Some(JStr(if t.errorMessage.Some? then t.errorMessage.value else UnexpectedMessage)), None, None);
  }

  /** `toUpperCase` on one character, for the ASCII letters. */
  function UpperAscii(c: char): char
  {
    if 'a' <= c <= 'z' then (c as int - 'a' as int + 'A' as int) as char else c
  }

  /** `field.charAt(0).toUpperCase() + field.slice(1)`. */
  function Capitalize(field: string): (r: string)
    ensures |r| == |field|
    ensures |field| > 0 ==> r[0] == UpperAscii(field[0]) && r[1..] == field[1..]
  {
    if field == [] then [] else [UpperAscii(field[0])] + field[1..]
  }

  /** One display line, `${fieldName}: ${message}`. */
  function Line(entry: (string, string)): string
  {
    Capitalize(entry.0) + ": " + entry.1
  }

  /** `Array.prototype.join`. */
  function Join(parts: seq<string>, sep: string): string
  {
    if parts == [] then ""
    else if |parts| == 1 then parts[0]
    else parts[0] + sep + Join(parts[1..], sep)
  }

  function Lines(validationErrors: seq<(string, string)>): (r: seq<string>)
    ensures |r| == |validationErrors|
    ensures forall i :: 0 <= i < |r| ==> r[i] == Line(validationErrors[i])
  {
    seq(|validationErrors|, i requires 0 <= i < |validationErrors| => Line(validationErrors[i]))
  }

  /** `formatValidationErrors`: one line per entry, in entry order, joined by
      newlines; the result is empty exactly for an empty map. */
  function FormatValidationErrors(validationErrors: Assoc<string>): (r: string)
    ensures r == "" <==> validationErrors == []
    ensures |validationErrors| == 1 ==> r == Line(validationErrors[0])
  {
    var lines := Lines(validationErrors);
    if lines == [] then ""
    else
      JoinStartsWithFirst(lines, "\n");
      assert |lines[0]| >= 2;
      Join(lines, "\n")
  }

  lemma JoinStartsWithFirst(parts: seq<string>, sep: string)
    requires parts != []
    ensures parts[0] <= Join(parts, sep)
  {
  }

  /** `formatApiError`: the formatted map of a validation error, otherwise the
      message itself when truthy and the fallback text when not. A
      non-validation error always displays a non-empty text. */
  function FormatApiError(e: ApiError): (r: JsValue)
    ensures e.kind == Validation && e.validationErrors.Some? ==>
              r == JStr(FormatValidationErrors(e.validationErrors.value))
    ensures !(e.kind == Validation && e.validationErrors.Some?) ==>
              r == (if Truthy(e.message) then e.message.value else JStr(DisplayFallback))
    ensures e.kind == Error ==> Truthy(Some(r))
    ensures e.kind == Error && !Truthy(e.message) ==> r == JStr(DisplayFallback)
  {
    if e.kind == Validation && e.validationErrors.Some? then
      JStr(FormatValidationErrors(e.validationErrors.value))
    else if Truthy(e.message) then
      e.message.value
    else
      JStr(DisplayFallback)
  }

  /** The statuses that redirect to the server-error page. */
  const ServerErrorStatuses: set<int> := {500, 502, 503}

  /** `getErrorPagePath`: `None` is `null`, meaning the error is shown inline. The
      `switch` compares with `===`, so only a numeric status can redirect. */
  function GetErrorPagePath(e: ApiError): (r: Option<string>)
    ensures r in {None, Some("/403"), Some("/404"), Some("/500")}
    ensures r == Some("/403") <==> e.status == Some(JNum(403))
    ensures r == Some("/404") <==> e.status == Some(JNum(404))
    ensures r == Some("/500") <==> e.status.Some? && e.status.value.JNum? && e.status.value.n in ServerErrorStatuses
    ensures !Truthy(e.status) ==> r == None
  {
    if !Truthy(e.status) then None
    else
      match e.status.value
      case JNum(403) => Some("/403")
      case JNum(404) => Some("/404")
      case JNum(500) => Some("/500")
      case JNum(502) => Some("/500")
      case JNum(503) => Some("/500")
      case _ => None
  }

  // ---- Properties of the classifier ----

  /** A 400 object body that lacks `error` or `message` is a validation map:
      one entry per body key, in body order, holding the stringified value. */
  lemma ValidationBodyIsValidation(o: Assoc<JsValue>)
    requires !IsErrorResponseShape(o)
    ensures var e := Classify(Response(400, Object(o)));
      && e.kind == Validation
      && e.status == Some(JNum(400))
      && e.message == Some(JStr(ValidationMessage))
      && e.validationErrors.Some?
      && |e.validationErrors.value| == |o|
      && (forall i :: 0 <= i < |o| ==> e.validationErrors.value[i] == (o[i].0, ToJsString(o[i].1)))
  {
  }

  /** A 400 body holding both `error` and `message` is copied as is: its status
      is the body's (absent if the body has none), with no fallback to the
      transport status. */
  lemma ErrorResponseOn400IsCopied(o: Assoc<JsValue>)
    requires IsErrorResponseShape(o)
    ensures var e := Classify(Response(400, Object(o)));
      && e.kind == Error
      && e.status == Get(o, "status")
      && e.error == Get(o, "error")
      && e.message == Get(o, "message")
      && e.validationErrors.None?
      && (!HasKey(o, "status") ==> e.status.None?)
  {
  }

  /** Any other response whose object body has `message`: that message, and the
      body's status when truthy, else the transport status. */
  lemma MessageBodyIsError(status: int, o: Assoc<JsValue>)
    requires status != 400 && HasKey(o, "message")
    ensures var e := Classify(Response(status, Object(o)));
      && e.kind == Error
      && e.message == Get(o, "message")
      && e.error == Get(o, "error")
      && (Truthy(Get(o, "status")) ==> e.status == Get(o, "status"))
      && (!Truthy(Get(o, "status")) ==> e.status == Some(JNum(status)))
  {
  }

  /** A response whose body matches neither shape keeps the transport status
      and takes its message from the status table. */
  lemma UnshapedBodyUsesDefaultMessage(status: int, data: Body)
    requires data.NotObject? || (status != 400 && !HasKey(data.fields, "message"))
    ensures Classify(Response(status, data))
         == ApiError(Error, Some(JNum(status)), Some(JStr(DefaultMessage(status))), None, None)
  {
  }

  /** A request without a response has no status, the connectivity message, and
      is never redirected; anything else is shown with its own message. */
  lemma NoResponseIsNetworkError()
    ensures Classify(RequestOnly) == ApiError(Error, None, Some(JStr(NetworkMessage)), None, None)
    ensures GetErrorPagePath(Classify(RequestOnly)) == None
    ensures FormatApiError(Classify(RequestOnly)) == JStr(NetworkMessage)
  {
  }

  lemma UnknownValueIsError(m: Option<string>)
    ensures var e := Classify(Other(m));
      && e.kind == Error && e.status.None?
      && e.message == Some(JStr(if m.Some? then m.value else UnexpectedMessage))
      && GetErrorPagePath(e) == None
  {
  }

  /** Validation errors are always shown inline: their status is 400. */
  lemma ValidationNeverRedirects(t: Thrown)
    requires Classify(t).kind == Validation
    ensures GetErrorPagePath(Classify(t)) == None
  {
  }

  /** A body that happens to hold validation messages for two fields literally
      named `error` and `message` is taken for an ErrorResponse. */
  lemma ValidationPayloadWithErrorAndMessageFields()
    ensures var o: Assoc<JsValue> := [("error", JStr("must not be blank")), ("message", JStr("must not be blank"))];
      Classify(Response(400, Object(o))).kind == Error
  {
    var o: Assoc<JsValue> := [("error", JStr("must not be blank")), ("message", JStr("must not be blank"))];
    assert o[0].0 == "error" && o[1].0 == "message";
  }

  // ---- Properties of the formatter ----

  lemma {:induction false} JoinAppend(x: seq<string>, y: seq<string>, sep: string)
    requires x != [] && y != []
    ensures Join(x + y, sep) == Join(x, sep) + sep + Join(y, sep)
  {
    if |x| == 1 {
      assert (x + y)[1..] == y;
    } else {
      var z := x + y;
      assert z[0] == x[0] && z[1..] == x[1..] + y;
      JoinAppend(x[1..], y, sep);
      var head, rest := x[0] + sep, Join(x[1..], sep);
      assert Join(z, sep) == head + (rest + sep + Join(y, sep));
      assert Join(x, sep) == head + rest;
      assert head + (rest + sep + Join(y, sep)) == (head + rest) + sep + Join(y, sep);
    }
  }

  /** Formatting splits along entries: the lines of two maps are the lines of
      the first, a newline, then the lines of the second, so entry order is kept. */
  lemma FormatAppend(a: Assoc<string>, b: Assoc<string>)
    requires a != [] && b != [] && DistinctKeys(a + b)
    ensures FormatValidationErrors(a + b) == FormatValidationErrors(a) + "\n" + FormatValidationErrors(b)
  {
    assert Lines(a + b) == Lines(a) + Lines(b);
    JoinAppend(Lines(a), Lines(b), "\n");
  }

  function Count(c: char, s: string): nat
  {
    if s == [] then 0 else (if s[0] == c then 1 else 0) + Count(c, s[1..])
  }

  lemma {:induction false} CountAppend(c: char, a: string, b: string)
    ensures Count(c, a + b) == Count(c, a) + Count(c, b)
  {
    if a != [] {
      assert (a + b)[1..] == a[1..] + b;
      CountAppend(c, a[1..], b);
    } else {
      assert a + b == b;
    }
  }

  lemma {:induction false} CountAbsent(c: char, s: string)
    requires c !in s
    ensures Count(c, s) == 0
  {
    if s != [] {
      CountAbsent(c, s[1..]);
    }
  }

  lemma {:induction false} JoinCount(parts: seq<string>)
    requires parts != []
    requires forall i :: 0 <= i < |parts| ==> '\n' !in parts[i]
    ensures Count('\n', Join(parts, "\n")) == |parts| - 1
  {
    CountAbsent('\n', parts[0]);
    if |parts| > 1 {
      JoinCount(parts[1..]);
      CountAppend('\n', parts[0], "\n");
      CountAppend('\n', parts[0] + "\n", Join(parts[1..], "\n"));
    }
  }

  /** When no field name or message contains a newline, the display text of a
      non-empty map has exactly one line per entry. */
  lemma OneLinePerEntry(validationErrors: Assoc<string>)
    requires validationErrors != []
    requires forall i :: 0 <= i < |validationErrors| ==>
               '\n' !in validationErrors[i].0 && '\n' !in validationErrors[i].1
    ensures Count('\n', FormatValidationErrors(validationErrors)) == |validationErrors| - 1
  {
    var lines := Lines(validationErrors);
    forall i | 0 <= i < |lines| ensures '\n' !in lines[i] {
      var f := validationErrors[i].0;
      assert forall k :: 0 <= k < |f| ==> f[k] != '\n';
      assert forall k :: 0 <= k < |Capitalize(f)| ==> Capitalize(f)[k] != '\n' by {
        forall k | 0 <= k < |Capitalize(f)| ensures Capitalize(f)[k] != '\n' {
          if k > 0 { assert Capitalize(f)[k] == Capitalize(f)[1..][k - 1] == f[k]; }
        }
      }
      assert lines[i] == Capitalize(f) + ": " + validationErrors[i].1;
    }
    JoinCount(lines);
  }

  lemma TitleIsCapitalized()
    ensures FormatValidationErrors([("title", "must not be blank")]) == "Title: must not be blank"
  {
  }
}
