/**
 * The catch-all exception filter: whatever a handler throws is turned into
 * one error body, and the HTTP status written is the body's status.
 */
module ExceptionFilter {
  import opened Common
  import Strings
  import Js

  /** One schema-validation issue: the path of keys (array indices written out as digits) and its message. */
  datatype Issue = Issue(path: seq<string>, message: string)

  /** The kinds of exception the filter tells apart, in the order it tests them. */
  datatype Exception =
    | ZodValidationException(issues: seq<Issue>)
    | HttpException(status: int, response: Js.Value, message: string)
    | ZodError(issues: seq<Issue>)
    | PrismaKnownRequestError(code: string, clientVersion: string, meta: Js.Value)
    | OtherException

  datatype ErrorResponse = ErrorResponse(status: int, message: Js.Value, timestamp: string,
                                         path: string, httpMethod: string, details: Js.Value)

  const UnexpectedMessage: string := "An unexpected error occurred"
  const ValidationFailed: string := "Validation failed"
  const DatabaseErrorMessage: string := "Database error occured"

  /** `(value as any)[key]` on a value the filter does not know the shape of. */
  function Field(v: Js.Value, key: string): (r: Js.Value)
  {
    if v.Obj? && key in v.fields then v.fields[key] else Js.Undefined
  }

  /** `{ path: error.path.join('.'), message: error.message }`. */
  function IssueEntry(issue: Issue): Js.Value
  {
    Js.Obj(map["path" := Js.Str(Strings.Join(issue.path, '.')), "message" := Js.Str(issue.message)])
  }

  /** `{ errors: issues.map(...) }`. */
  function IssueDetails(issues: seq<Issue>): (d: Js.Value)
    ensures d.Obj? && "errors" in d.fields && d.fields["errors"].Arr?
    ensures |d.fields["errors"].items| == |issues|
  {
    Js.Obj(map["errors" := Js.Arr(seq(|issues|, k requires 0 <= k < |issues| => IssueEntry(issues[k])))])
  }

  /** The status each kind of exception is answered with. */
  function StatusFor(e: Exception): int
  {
    match e
    case ZodValidationException(_) => 400
    case HttpException(status, _, _) => status
    case ZodError(_) => 400
    case PrismaKnownRequestError(_, _, _) => 400
    case OtherException => 500
  }

  /**
   * The body `catch` builds, or `None` when building it throws: a
   * validation exception without issues has no first message to read.
   */
  function Handle(e: Exception, url: string, httpMethod: string, timestamp: string): (r: Option<ErrorResponse>)
  {
    var base := ErrorResponse(500, Js.Str(UnexpectedMessage), timestamp, url, httpMethod, Js.Null);
    match e
    case ZodValidationException(issues) =>
      if |issues| == 0 then None
      else Some(base.(status := 400, message := Js.Str(issues[0].message), details := IssueDetails(issues)))
    case HttpException(status, response, message) =>
      var fromResponse := Field(response, "message");
      var details := Field(response, "details");
      Some(base.(status := status,
                 message := if Js.Truthy(fromResponse) then fromResponse
                            else if message != "" then Js.Str(message)
                            else Js.Str(UnexpectedMessage),
                 details := if Js.Truthy(details) then details else Js.Null))
    case ZodError(issues) =>
      Some(base.(status := 400, message := Js.Str(ValidationFailed), details := IssueDetails(issues)))
    case PrismaKnownRequestError(code, clientVersion, meta) =>
      var database := Js.Obj(map["code" := Js.Str(code), "clientVersion" := Js.Str(clientVersion),
                                 "meta" := if Js.Truthy(meta) then meta else Js.Obj(map[])]);
      Some(base.(status := 400, message := Js.Str(DatabaseErrorMessage),
                 details := Js.Obj(map["databaseError" := database])))
    case OtherException => Some(base)
  }

  /**
   * Every exception is answered, except a validation exception with no
   * issues; the status follows the exception's kind, and the request's
   * path and method and the clock are echoed.
   */
  lemma Classification(e: Exception, url: string, httpMethod: string, timestamp: string)
    ensures Handle(e, url, httpMethod, timestamp).None? <==> e.ZodValidationException? && |e.issues| == 0
    ensures Handle(e, url, httpMethod, timestamp).Some? ==>
              var r := Handle(e, url, httpMethod, timestamp).value;
              r.status == StatusFor(e) && r.path == url && r.httpMethod == httpMethod && r.timestamp == timestamp
    ensures e.OtherException? ==>
              Handle(e, url, httpMethod, timestamp) == Some(ErrorResponse(500, Js.Str(UnexpectedMessage), timestamp, url, httpMethod, Js.Null))
  {
  }

  /** An HttpException always gets a truthy message: the response's, its own, or the default, in that order. */
  lemma HttpMessageChosen(status: int, response: Js.Value, message: string, url: string, httpMethod: string, timestamp: string)
    ensures var r := Handle(HttpException(status, response, message), url, httpMethod, timestamp).value;
            Js.Truthy(r.message)
            && (Js.Truthy(Field(response, "message")) ==> r.message == Field(response, "message"))
            && (!Js.Truthy(Field(response, "message")) && message != "" ==> r.message == Js.Str(message))
            && (Js.Truthy(r.details) <==> Js.Truthy(Field(response, "details")))
  {
  }

  /** A database error's details always hold an object for `meta`, the empty one when the error has none. */
  lemma DatabaseMetaDefaults(code: string, clientVersion: string, meta: Js.Value, url: string, httpMethod: string, timestamp: string)
    ensures var d := Handle(PrismaKnownRequestError(code, clientVersion, meta), url, httpMethod, timestamp).value.details;
            var meta' := d.fields["databaseError"].fields["meta"];
            Js.Truthy(meta') && (!Js.Truthy(meta) ==> meta' == Js.Obj(map[]))
            && d.fields["databaseError"].fields["code"] == Js.Str(code)
  {
  }

  /**
   * The validation details list every issue in order, and each dotted path
   * splits back into the issue's keys when no key holds a dot.
   */
  lemma IssuePathsRoundTrip(issues: seq<Issue>, k: nat)
    requires k < |issues|
    requires |issues[k].path| >= 1 && forall j :: 0 <= j < |issues[k].path| ==> '.' !in issues[k].path[j]
    ensures var entry := IssueDetails(issues).fields["errors"].items[k];
            entry.fields["message"] == Js.Str(issues[k].message)
            && Strings.Split(entry.fields["path"].s, '.') == issues[k].path
  {
    Strings.SplitJoin(issues[k].path, '.');
  }

  /** The part of the HTTP response the filter writes. */
  class HttpResponse {
    var statusCode: int
    var body: Option<ErrorResponse>

    constructor ()
      ensures statusCode == 200 && body.None?
    {
      statusCode := 200;
      body := None;
    }
  }

  /** `catch`: the status written is always the body's status. */
  method Catch(response: HttpResponse, e: Exception, url: string, httpMethod: string, timestamp: string)
    modifies response
    ensures Handle(e, url, httpMethod, timestamp).Some? ==>
              response.body == Handle(e, url, httpMethod, timestamp)
              && response.statusCode == Handle(e, url, httpMethod, timestamp).value.status
    ensures Handle(e, url, httpMethod, timestamp).None? ==> unchanged(response)
  {
    var r := Handle(e, url, httpMethod, timestamp);
    match r {
      case None =>
      case Some(body) =>
        response.statusCode := body.status;
        response.body := Some(body);
    }
  }
}
