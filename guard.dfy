/**
 * The authentication guard: public handlers pass; every other request
 * needs an `Authorization` header whose second space-separated word is a
 * token the JWT verifier accepts and whose payload names a subject.
 */
module Guard {
  import opened Common
  import Strings

  /** What the JWT verifier makes of a token: a rejection, or the payload's `sub` ("" when missing). */
  datatype Verified = Rejected | Payload(sub: string)

  /** `const [_, token] = header.split(' ')`: the second word, or "" when there is none. */
  function BearerToken(header: string): (t: string)
    ensures ' ' !in t
    ensures ' ' !in header ==> t == ""
  {
    var parts := Strings.Split(header, ' ');
    if |parts| >= 2 then parts[1] else ""
  }

  /**
   * The decision of `canActivate`: `Ok(None)` lets a public handler through
   * untouched, `Ok(Some(sub))` lets the request through as user `sub`.
   */
  function Decide(isPublic: bool, authorization: Option<string>, verify: string -> Verified): (r: Result<Option<string>>)
  {
    if isPublic then Ok(None)
    else if authorization.None? || authorization.value == "" then Err(HttpError(Unauthorized, "No token provided"))
    else
      var token := BearerToken(authorization.value);
      if token == "" then Err(HttpError(Unauthorized, "Invalid token"))
      else match verify(token)
        case Rejected => Err(HttpError(Unauthorized, "Invalid token"))
        case Payload(sub) => if sub == "" then Err(HttpError(Unauthorized, "Invalid token")) else Ok(Some(sub))
  }

  /**
   * A request passes as `sub` exactly when the header is present, its second
   * word is non-empty and verifies to a payload naming `sub`; every refusal
   * is Unauthorized, and only a missing header says so.
   */
  lemma DecideIff(isPublic: bool, authorization: Option<string>, verify: string -> Verified, sub: string)
    ensures isPublic ==> Decide(isPublic, authorization, verify) == Ok(None)
    ensures Decide(isPublic, authorization, verify) == Ok(Some(sub)) <==>
              !isPublic && authorization.Some? && authorization.value != ""
              && BearerToken(authorization.value) != ""
              && verify(BearerToken(authorization.value)) == Payload(sub) && sub != ""
    ensures Decide(isPublic, authorization, verify).Err? ==>
              Decide(isPublic, authorization, verify).error
              == HttpError(Unauthorized, if authorization.None? || authorization.value == "" then "No token provided"
                                         else "Invalid token")
  {
  }

  /** The first word is never looked at: any scheme word works like "Bearer". */
  lemma {:induction false} SchemeNotChecked(word: string, token: string, verify: string -> Verified)
    requires ' ' !in word && ' ' !in token
    ensures Decide(false, Some(word + " " + token), verify) == Decide(false, Some("Bearer " + token), verify)
  {
    SplitTwoWords(word, token);
    SplitTwoWords("Bearer", token);
  }

  lemma {:induction false} SplitTwoWords(a: string, b: string)
    requires ' ' !in a && ' ' !in b
    ensures BearerToken(a + " " + b) == b
  {
    assert Strings.Join([b], ' ') == b;
    assert Strings.Join([a, b], ' ') == a + " " + b;
    Strings.SplitJoin([a, b], ' ');
  }

  /** A header of a single word, such as a bare token, is refused. */
  lemma SingleWordRefused(header: string, verify: string -> Verified)
    requires header != "" && ' ' !in header
    ensures Decide(false, Some(header), verify) == Err(HttpError(Unauthorized, "Invalid token"))
  {
  }

  /** The part of the request the guard reads and writes. */
  class Request {
    const authorization: Option<string>
    var user: Option<string>

    constructor (authorization: Option<string>)
      ensures this.authorization == authorization && user.None?
    {
      this.authorization := authorization;
      user := None;
    }
  }

  /** `canActivate`: on success with a token, the request's user becomes the token's subject. */
  method CanActivate(request: Request, isPublic: bool, verify: string -> Verified) returns (r: Result<bool>)
    modifies request
    ensures r.Ok? <==> Decide(isPublic, request.authorization, verify).Ok?
    ensures r.Ok? ==> r.value
    ensures r.Err? ==> r.error == Decide(isPublic, request.authorization, verify).error
    ensures request.user == match Decide(isPublic, request.authorization, verify)
                            case Ok(Some(sub)) => Some(sub)
                            case _ => old(request.user)
  {
    if isPublic {
      return Ok(true);
    }
    var header := request.authorization;
    if header.None? || header.value == "" {
      return Err(HttpError(Unauthorized, "No token provided"));
    }
    var token := BearerToken(header.value);
    if token == "" {
      return Err(HttpError(Unauthorized, "Invalid token"));
    }
    var decoded := verify(token);
    if decoded.Rejected? || decoded.sub == "" {
      return Err(HttpError(Unauthorized, "Invalid token"));
    }
    request.user := Some(decoded.sub);
    return Ok(true);
  }
}
