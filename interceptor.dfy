/**
 * The response interceptor: every successful handler result leaves the
 * server wrapped as `{ data, message, success, timestamp, path, statusCode }`,
 * with a message chosen from the handler's metadata or from the request
 * method and status.
 */
module Interceptor {
  import opened Common
  import Strings
  import Js

  const Retrieved: string := "Data retrieved successfully"
  const Created: string := "Resource created successfully"
  const Updated: string := "Resource updated successfully"
  const Deleted: string := "Resource deleted successfully"
  const Completed: string := "Operation completed successfully"
  const Success: string := "Success"

  /** `getDefaultMessage`. */
  function DefaultMessage(httpMethod: string, statusCode: int): (m: string)
  {
    if 200 <= statusCode < 300 then
      var verb := Strings.ToUpper(httpMethod);
      if verb == "GET" then Retrieved
      else if verb == "POST" then Created
      else if verb == "PUT" || verb == "PATCH" then Updated
      else if verb == "DELETE" then Deleted
      else Completed
    else Success
  }

  /** The default message table, read both ways: each message names one class of requests. */
  lemma DefaultMessageTable(httpMethod: string, statusCode: int)
    ensures var m := DefaultMessage(httpMethod, statusCode);
            var verb := Strings.ToUpper(httpMethod);
            (m == Success <==> !(200 <= statusCode < 300))
            && (m == Retrieved <==> 200 <= statusCode < 300 && verb == "GET")
            && (m == Created <==> 200 <= statusCode < 300 && verb == "POST")
            && (m == Updated <==> 200 <= statusCode < 300 && (verb == "PUT" || verb == "PATCH"))
            && (m == Deleted <==> 200 <= statusCode < 300 && verb == "DELETE")
            && (m == Completed <==> 200 <= statusCode < 300 && verb !in {"GET", "POST", "PUT", "PATCH", "DELETE"})
  {
  }

  lemma {:induction false} UpperOfUpper(s: string)
    ensures Strings.ToUpper(Strings.ToUpper(s)) == Strings.ToUpper(s)
  {
    var u := Strings.ToUpper(s);
    assert forall k :: 0 <= k < |u| ==> Strings.ToUpper(u)[k] == u[k];
  }

  lemma UpperOfLowerChar(c: char)
    ensures Strings.ToUpperChar(Strings.ToLowerChar(c)) == Strings.ToUpperChar(c)
  {
    if Strings.IsUpper(c) {
      assert Strings.IsLower(Strings.ToLowerChar(c));
    }
  }

  lemma {:induction false} UpperOfLower(s: string)
    ensures Strings.ToUpper(Strings.ToLower(s)) == Strings.ToUpper(s)
  {
    var l := Strings.ToLower(s);
    var a, b := Strings.ToUpper(l), Strings.ToUpper(s);
    forall k | 0 <= k < |s|
      ensures a[k] == b[k]
    {
      UpperOfLowerChar(s[k]);
    }
  }

  /** The default message depends on the method only through its upper-case form. */
  lemma SameUpperSameMessage(a: string, b: string, statusCode: int)
    requires Strings.ToUpper(a) == Strings.ToUpper(b)
    ensures DefaultMessage(a, statusCode) == DefaultMessage(b, statusCode)
  {
  }

  /** Methods are matched without regard to letter case. */
  lemma DefaultMessageIgnoresCase(httpMethod: string, statusCode: int)
    ensures DefaultMessage(Strings.ToLower(httpMethod), statusCode) == DefaultMessage(httpMethod, statusCode)
    ensures DefaultMessage(Strings.ToUpper(httpMethod), statusCode) == DefaultMessage(httpMethod, statusCode)
  {
    UpperOfLower(httpMethod);
    SameUpperSameMessage(Strings.ToLower(httpMethod), httpMethod, statusCode);
    UpperOfUpper(httpMethod);
    SameUpperSameMessage(Strings.ToUpper(httpMethod), httpMethod, statusCode);
  }

  /** `isAlreadyWrapped`: a truthy object that has the keys data, message and success. */
  predicate IsAlreadyWrapped(data: Js.Value)
  {
    Js.Truthy(data) && data.Obj? && "data" in data.fields && "message" in data.fields && "success" in data.fields
  }

  /** What the interceptor knows about the call: the request, the response status so far, the handler's `@Message`, the clock. */
  datatype Context = Context(httpMethod: string, url: string, statusCode: int, handlerMessage: Option<string>, timestamp: string)

  /** `getAllAndOverride(MESSAGE_KEY) || getDefaultMessage(...)`: an empty override falls through. */
  function Message(ctx: Context): (m: string)
    ensures ctx.handlerMessage.Some? && ctx.handlerMessage.value != "" ==> m == ctx.handlerMessage.value
    ensures ctx.handlerMessage.None? || ctx.handlerMessage.value == "" ==> m == DefaultMessage(ctx.httpMethod, ctx.statusCode)
  {
    match ctx.handlerMessage
    case Some(m) => if m != "" then m else DefaultMessage(ctx.httpMethod, ctx.statusCode)
    case None => DefaultMessage(ctx.httpMethod, ctx.statusCode)
  }

  /** The `map` in `intercept`: wrapped results get the message replaced, anything else is wrapped. */
  function Intercept(ctx: Context, data: Js.Value): (r: Js.Value)
  {
    if IsAlreadyWrapped(data) then Js.Obj(data.fields["message" := Js.Str(Message(ctx))])
    else Js.Obj(map["data" := data, "message" := Js.Str(Message(ctx)), "success" := Js.Bool(true),
                    "timestamp" := Js.Str(ctx.timestamp), "path" := Js.Str(ctx.url),
                    "statusCode" := Js.Num(ctx.statusCode as real)])
  }

  /**
   * Every result leaves wrapped and carrying the chosen message; a result
   * that was not wrapped keeps its value under `data` with `success` true,
   * and a wrapped one keeps every other field.
   */
  lemma InterceptWraps(ctx: Context, data: Js.Value)
    ensures var r := Intercept(ctx, data);
            IsAlreadyWrapped(r) && r.fields["message"] == Js.Str(Message(ctx))
            && (!IsAlreadyWrapped(data) ==>
                  r.fields["data"] == data && r.fields["success"] == Js.Bool(true)
                  && r.fields["path"] == Js.Str(ctx.url) && r.fields["statusCode"] == Js.Num(ctx.statusCode as real))
            && (IsAlreadyWrapped(data) ==>
                  r.fields.Keys == data.fields.Keys
                  && forall key :: key in data.fields && key != "message" ==> r.fields[key] == data.fields[key])
  {
  }

  /** Passing a response through the interceptor twice changes nothing more. */
  lemma InterceptIdempotent(ctx: Context, data: Js.Value)
    ensures Intercept(ctx, Intercept(ctx, data)) == Intercept(ctx, data)
  {
    var r := Intercept(ctx, data);
    assert IsAlreadyWrapped(r);
    assert r.fields["message" := Js.Str(Message(ctx))] == r.fields;
  }
}
