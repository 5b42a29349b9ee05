/**
 * Authentication flows: registration with an email-verification token,
 * verification, resending, login with the invalid-password counter, and
 * the forgot/reset password pair. Tokens are single-use rows with an
 * expiry; each user holds at most one token of each kind.
 */
module Auth {
  import opened Common
  import Users
  import Preferences

  type Id = string

  /** A verification or password-reset token row; `expiresAt` in milliseconds. */
  datatype Token = Token(id: Id, userId: Id, token: string, expiresAt: int)

  /** The tables the flows read and write. */
  datatype AuthState = AuthState(users: seq<Users.User>, prefs: seq<Preferences.Preference>,
                                 verificationTokens: seq<Token>, resetTokens: seq<Token>)

  datatype AuthOutcome<T> = AuthOutcome(result: Result<T>, state: AuthState)

  /** Whether the mail provider accepted the message; a refusal rejects the send call. */
  datatype Mail = Delivered | Undeliverable

  const MillisPerHour: int := 3600000

  const InvalidToken: string := "Invalid token"
  const InvalidCredentials: string := "Invalid credentials"
  const AccountBlocked: string := "Account blocked due to too many invalid password attempts"
  const VerifyFirst: string := "Please verify your email before logging in"
  const VerificationExpired: string := "Token has expired. Try to resend again."
  const ResetExpired: string := "Token has expired. Try to reset again."
  const RegisterMailFailed: string := "Failed to send verification email. Please try registering again later."

  /** The expiry of a token issued at `now` that lives `hours` hours. */
  function ExpiresAt(now: int, hours: int): (r: int)
    ensures hours >= 0 ==> r >= now
  {
    now + hours * MillisPerHour
  }

  /** `expiresAt < new Date()`. */
  predicate Expired(t: Token, now: int)
  {
    t.expiresAt < now
  }

  // ---------------------------------------------------------------------
  // Token tables
  // ---------------------------------------------------------------------

  predicate OnePerUser(tokens: seq<Token>)
  {
    forall i, j :: 0 <= i < j < |tokens| ==> tokens[i].userId != tokens[j].userId
  }

  predicate UniqueTokens(tokens: seq<Token>)
  {
    forall i, j :: 0 <= i < j < |tokens| ==> tokens[i].token != tokens[j].token
  }

  /** `findUnique({ where: { token } })`. */
  function FindToken(tokens: seq<Token>, token: string): (r: Option<nat>)
    ensures r.Some? ==> r.value < |tokens| && tokens[r.value].token == token
    ensures r.None? <==> forall k :: 0 <= k < |tokens| ==> tokens[k].token != token
  {
    if tokens == [] then None
    else if tokens[0].token == token then Some(0)
    else
      var rest := FindToken(tokens[1..], token);
      if rest.None? then None else Some(rest.value + 1)
  }

  /** `deleteMany({ where: { userId } })`. */
  function WithoutUser(tokens: seq<Token>, userId: Id): (r: seq<Token>)
    ensures forall k :: 0 <= k < |r| ==> r[k] in tokens && r[k].userId != userId
    ensures forall k :: 0 <= k < |tokens| && tokens[k].userId != userId ==> tokens[k] in r
  {
    if tokens == [] then []
    else
      var rest := WithoutUser(tokens[1..], userId);
      assert forall k :: 0 <= k < |rest| ==> rest[k] in tokens by {
        forall k | 0 <= k < |rest| ensures rest[k] in tokens {
          assert rest[k] in tokens[1..];
        }
      }
      assert forall k :: 1 <= k < |tokens| ==> tokens[k] == tokens[1..][k - 1];
      if tokens[0].userId != userId then [tokens[0]] + rest else rest
  }

  /** `delete({ where: { id } })` of the row just looked up. */
  function RemoveAt(tokens: seq<Token>, i: nat): (r: seq<Token>)
    requires i < |tokens|
    ensures |r| == |tokens| - 1
    ensures forall k :: 0 <= k < |r| ==> r[k] == if k < i then tokens[k] else tokens[k + 1]
  {
    tokens[..i] + tokens[i + 1..]
  }

  /** `createEmailVerificationToken` / `createPasswordResetToken`: wipe the user's tokens, then add one. */
  function IssueToken(tokens: seq<Token>, userId: Id, token: string, tokenId: Id, expiresAt: int): (r: seq<Token>)
    ensures |r| > 0 && r[|r| - 1] == Token(tokenId, userId, token, expiresAt)
    ensures forall k :: 0 <= k < |r| - 1 ==> r[k] in tokens && r[k].userId != userId
    ensures forall k :: 0 <= k < |tokens| && tokens[k].userId != userId ==> tokens[k] in r
  {
    WithoutUser(tokens, userId) + [Token(tokenId, userId, token, expiresAt)]
  }

  /** Dropping a user's tokens keeps one token per user. */
  lemma {:induction false} WithoutUserKeepsOnePerUser(tokens: seq<Token>, userId: Id)
    requires OnePerUser(tokens)
    ensures OnePerUser(WithoutUser(tokens, userId))
  {
    if tokens != [] {
      var tail := tokens[1..];
      WithoutUserKeepsOnePerUser(tail, userId);
      var rest := WithoutUser(tail, userId);
      if tokens[0].userId != userId {
        var r := [tokens[0]] + rest;
        forall i, j | 0 <= i < j < |r|
          ensures r[i].userId != r[j].userId
        {
          assert r[j] == rest[j - 1];
          if i == 0 {
            assert rest[j - 1] in tail;
            var m :| 0 <= m < |tail| && tail[m] == rest[j - 1];
            assert tail[m] == tokens[m + 1];
          } else {
            assert r[i] == rest[i - 1];
          }
        }
      }
    }
  }

  /** Dropping a user's tokens keeps token values unique. */
  lemma {:induction false} WithoutUserKeepsTokensUnique(tokens: seq<Token>, userId: Id)
    requires UniqueTokens(tokens)
    ensures UniqueTokens(WithoutUser(tokens, userId))
  {
    if tokens != [] {
      var tail := tokens[1..];
      WithoutUserKeepsTokensUnique(tail, userId);
      var rest := WithoutUser(tail, userId);
      if tokens[0].userId != userId {
        var r := [tokens[0]] + rest;
        forall i, j | 0 <= i < j < |r|
          ensures r[i].token != r[j].token
        {
          assert r[j] == rest[j - 1];
          if i == 0 {
            assert rest[j - 1] in tail;
            var m :| 0 <= m < |tail| && tail[m] == rest[j - 1];
            assert tail[m] == tokens[m + 1];
          } else {
            assert r[i] == rest[i - 1];
          }
        }
      }
    }
  }

  /** Issuing keeps one token per user, and the user's only token is the new one. */
  lemma IssueKeepsOnePerUser(tokens: seq<Token>, userId: Id, token: string, tokenId: Id, expiresAt: int)
    requires OnePerUser(tokens)
    ensures var r := IssueToken(tokens, userId, token, tokenId, expiresAt);
            OnePerUser(r)
            && forall k :: 0 <= k < |r| && r[k].userId == userId ==> r[k] == Token(tokenId, userId, token, expiresAt)
  {
    WithoutUserKeepsOnePerUser(tokens, userId);
  }

  /** Issuing a token value not yet in use keeps token values unique. */
  lemma IssueKeepsTokensUnique(tokens: seq<Token>, userId: Id, token: string, tokenId: Id, expiresAt: int)
    requires UniqueTokens(tokens)
    requires FindToken(tokens, token).None?
    ensures UniqueTokens(IssueToken(tokens, userId, token, tokenId, expiresAt))
  {
    WithoutUserKeepsTokensUnique(tokens, userId);
  }

  /** Once the looked-up row is deleted, its token value is gone. */
  lemma {:induction false} RemovedTokenGone(tokens: seq<Token>, token: string)
    requires UniqueTokens(tokens)
    requires FindToken(tokens, token).Some?
    ensures FindToken(RemoveAt(tokens, FindToken(tokens, token).value), token).None?
  {
    var i := FindToken(tokens, token).value;
    var r := RemoveAt(tokens, i);
    forall k | 0 <= k < |r|
      ensures r[k].token != token
    {
      if k < i {
        assert r[k] == tokens[k];
      } else {
        assert r[k] == tokens[k + 1];
      }
    }
  }

  // ---------------------------------------------------------------------
  // The flows
  // ---------------------------------------------------------------------

  /** What `register` returns. */
  datatype Registered = Registered(id: Id, firstName: string, lastName: string, email: string, preferencesId: Id)

  /** `register` as written: a mail failure propagates and the new user stays. */
  function RegisterSpec(s: AuthState, dto: Users.CreateUserDto, hashedPassword: string, hashedMobile: string,
                        newId: Id, prefsId: Id, token: string, tokenId: Id, now: int, hours: int, mail: Mail)
    : AuthOutcome<Registered>
  {
    var c := Users.CreateSpec(s.users, s.prefs, dto, hashedPassword, hashedMobile, newId, prefsId);
    match c.result
    case Err(e) => AuthOutcome(Err(e), s.(users := c.users, prefs := c.prefs))
    case Ok(created) =>
      var u := created.user;
      var tokens := IssueToken(s.verificationTokens, u.id, token, tokenId, ExpiresAt(now, hours));
      var after := s.(users := c.users, prefs := c.prefs, verificationTokens := tokens);
      if mail == Undeliverable then AuthOutcome(Err(Unexpected), after)
      else AuthOutcome(Ok(Registered(u.id, u.firstName, u.lastName, u.email, created.preferencesId)), after)
  }

  /** `register` with the clean-up its failure branch intends: the new user is removed again. */
  function RegisterFixedSpec(s: AuthState, dto: Users.CreateUserDto, hashedPassword: string, hashedMobile: string,
                             newId: Id, prefsId: Id, token: string, tokenId: Id, now: int, hours: int, mail: Mail)
    : AuthOutcome<Registered>
  {
    var o := RegisterSpec(s, dto, hashedPassword, hashedMobile, newId, prefsId, token, tokenId, now, hours, mail);
    if o.result == Err(Unexpected) && Users.CreateSpec(s.users, s.prefs, dto, hashedPassword, hashedMobile, newId, prefsId).result.Ok?
    then
      var removed := Users.RemoveRow(o.state.users, newId);
      AuthOutcome(Err(HttpError(InternalServerError, RegisterMailFailed)), o.state.(users := removed.users))
    else o
  }

  /** `verifyEmail`. */
  function VerifyEmailSpec(s: AuthState, token: string, email: string, now: int): AuthOutcome<bool>
  {
    if token == "" then AuthOutcome(Err(HttpError(BadRequest, "Token is required")), s)
    else if email == "" then AuthOutcome(Err(HttpError(BadRequest, "Email is required")), s)
    else match FindToken(s.verificationTokens, token)
      case None => AuthOutcome(Err(HttpError(NotFound, InvalidToken)), s)
      case Some(i) =>
        var t := s.verificationTokens[i];
        match Users.FindRow(s.users, t.userId)
        case None => AuthOutcome(Err(Unexpected), s)
        case Some(u) =>
          if s.users[u].email != email then AuthOutcome(Err(HttpError(BadRequest, InvalidToken)), s)
          else if Expired(t, now) then
            AuthOutcome(Err(HttpError(BadRequest, VerificationExpired)), s.(verificationTokens := RemoveAt(s.verificationTokens, i)))
          else
            var o := Users.UpdateRow(s.users, t.userId, (x: Users.User) => x.(emailVerifiedAt := Some(now)));
            match o.result
            case Err(e) => AuthOutcome(Err(e), s.(users := o.users))
            case Ok(_) =>
              AuthOutcome(Ok(true), s.(users := o.users, verificationTokens := RemoveAt(s.verificationTokens, i)))
  }

  /** `resendVerificationEmail`. */
  function ResendSpec(s: AuthState, email: string, token: string, tokenId: Id, now: int, hours: int, mail: Mail)
    : AuthOutcome<bool>
  {
    match Users.FindUser(s.users, Users.ByEmail(email))
    case None => AuthOutcome(Err(HttpError(NotFound, "User not found")), s)
    case Some(user) =>
      if user.emailVerifiedAt.Some? then AuthOutcome(Err(HttpError(BadRequest, "Email already verified")), s)
      else
        var after := s.(verificationTokens := IssueToken(s.verificationTokens, user.id, token, tokenId, ExpiresAt(now, hours)));
        if mail == Undeliverable then AuthOutcome(Err(Unexpected), after) else AuthOutcome(Ok(true), after)
  }

  /** What `login` returns. */
  datatype LoginResult = LoginResult(accessToken: string, id: Id, email: string, username: string,
                                     firstName: string, lastName: string, role: Users.Role)

  /**
   * `login`. `compare` is the password-hash check and `sign` the JWT issuer;
   * `maxAttempts` is the configured maximum of invalid attempts.
   */
  function LoginSpec(s: AuthState, email: string, password: string, compare: (string, string) -> bool,
                     maxAttempts: int, sign: Id -> string): AuthOutcome<LoginResult>
  {
    match Users.FindUser(s.users, Users.ByEmail(email))
    case None => AuthOutcome(Err(HttpError(Unauthorized, InvalidCredentials)), s)
    case Some(user) =>
      if !compare(password, user.password) then
        var o := Users.UpdateAttemptsSpec(s.users, user.id, 1, Users.Increment);
        match o.result
        case Err(e) => AuthOutcome(Err(e), s.(users := o.users))
        case Ok(updated) =>
          if updated.invalidPasswordAttempts >= maxAttempts then
            AuthOutcome(Err(HttpError(Unauthorized, AccountBlocked)), s.(users := o.users))
          else AuthOutcome(Err(HttpError(Unauthorized, InvalidCredentials)), s.(users := o.users))
      else
        var o := Users.UpdateAttemptsSpec(s.users, user.id, 0, Users.Set);
        match o.result
        case Err(e) => AuthOutcome(Err(e), s.(users := o.users))
        case Ok(_) =>
          if user.emailVerifiedAt.None? then AuthOutcome(Err(HttpError(Unauthorized, VerifyFirst)), s.(users := o.users))
          else
            AuthOutcome(Ok(LoginResult(sign(user.id), user.id, user.email, user.username, user.firstName, user.lastName, user.role)),
                        s.(users := o.users, resetTokens := WithoutUser(s.resetTokens, user.id)))
  }

  /** `forgotPassword`: an unknown email is answered like a known one, without a token. */
  function ForgotPasswordSpec(s: AuthState, email: string, token: string, tokenId: Id, now: int, hours: int, mail: Mail)
    : AuthOutcome<bool>
  {
    match Users.FindUser(s.users, Users.ByEmail(email))
    case None => AuthOutcome(Ok(true), s)
    case Some(user) =>
      var after := s.(resetTokens := IssueToken(s.resetTokens, user.id, token, tokenId, ExpiresAt(now, hours)));
      if mail == Undeliverable then AuthOutcome(Err(Unexpected), after) else AuthOutcome(Ok(true), after)
  }

  /** `resetPassword`; `hashedPassword` is the hash of the new password. */
  function ResetPasswordSpec(s: AuthState, token: string, hashedPassword: string, now: int): AuthOutcome<bool>
  {
    match FindToken(s.resetTokens, token)
    case None => AuthOutcome(Err(HttpError(NotFound, InvalidToken)), s)
    case Some(i) =>
      var t := s.resetTokens[i];
      if Expired(t, now) then AuthOutcome(Err(HttpError(BadRequest, ResetExpired)), s.(resetTokens := RemoveAt(s.resetTokens, i)))
      else if Users.FindUser(s.users, Users.ById(t.userId)).None? then AuthOutcome(Err(HttpError(NotFound, "User not found")), s)
      else
        var o := Users.UpdateRow(s.users, t.userId, (u: Users.User) => u.(password := hashedPassword));
        match o.result
        case Err(e) => AuthOutcome(Err(e), s.(users := o.users))
        case Ok(_) => AuthOutcome(Ok(true), s.(users := o.users, resetTokens := RemoveAt(s.resetTokens, i)))
  }

  // ---------------------------------------------------------------------
  // Properties
  // ---------------------------------------------------------------------

  /** The checks of `verifyEmail` in order; every refusal before the expiry check writes nothing. */
  lemma VerifyEmailCheckOrder(s: AuthState, token: string, email: string, now: int)
    ensures var o := VerifyEmailSpec(s, token, email, now);
            (token == "" ==> o == AuthOutcome(Err(HttpError(BadRequest, "Token is required")), s))
            && (token != "" && email == "" ==> o == AuthOutcome(Err(HttpError(BadRequest, "Email is required")), s))
            && (token != "" && email != "" && FindToken(s.verificationTokens, token).None?
                ==> o == AuthOutcome(Err(HttpError(NotFound, InvalidToken)), s))
            && (token != "" && email != "" && FindToken(s.verificationTokens, token).Some?
                && Users.FindRow(s.users, s.verificationTokens[FindToken(s.verificationTokens, token).value].userId).Some?
                && s.users[Users.FindRow(s.users, s.verificationTokens[FindToken(s.verificationTokens, token).value].userId).value].email != email
                ==> o == AuthOutcome(Err(HttpError(BadRequest, InvalidToken)), s))
  {
  }

  /** An expired token is deleted and refused; a valid one verifies its user and is deleted, so it works once. */
  lemma {:induction false} VerifyEmailSingleUse(s: AuthState, token: string, email: string, now: int, later: int)
    requires UniqueTokens(s.verificationTokens)
    requires VerifyEmailSpec(s, token, email, now).result.Ok?
    ensures var o := VerifyEmailSpec(s, token, email, now);
            var t := s.verificationTokens[FindToken(s.verificationTokens, token).value];
            !Expired(t, now)
            && Users.FindRow(o.state.users, t.userId).Some?
            && o.state.users[Users.FindRow(o.state.users, t.userId).value].emailVerifiedAt == Some(now)
            && VerifyEmailSpec(o.state, token, email, later).result == Err(HttpError(NotFound, InvalidToken))
  {
    var i := FindToken(s.verificationTokens, token).value;
    var t := s.verificationTokens[i];
    var o := VerifyEmailSpec(s, token, email, now);
    var u := Users.FindRow(s.users, t.userId).value;
    assert o.state.users == s.users[u := s.users[u].(emailVerifiedAt := Some(now))];
    assert o.state.users[u].id == t.userId;
    assert Users.FindRow(o.state.users, t.userId) == Some(u);
    RemovedTokenGone(s.verificationTokens, token);
  }

  /** An expired verification token is refused and deleted, and no user changes. */
  lemma VerifyEmailExpired(s: AuthState, token: string, email: string, now: int)
    requires token != "" && email != ""
    requires FindToken(s.verificationTokens, token).Some?
    requires var t := s.verificationTokens[FindToken(s.verificationTokens, token).value];
             Users.FindRow(s.users, t.userId).Some? && s.users[Users.FindRow(s.users, t.userId).value].email == email
             && Expired(t, now)
    ensures var o := VerifyEmailSpec(s, token, email, now);
            o.result == Err(HttpError(BadRequest, VerificationExpired))
            && o.state.users == s.users && o.state.resetTokens == s.resetTokens
            && o.state.verificationTokens == RemoveAt(s.verificationTokens, FindToken(s.verificationTokens, token).value)
            && (UniqueTokens(s.verificationTokens) ==> FindToken(o.state.verificationTokens, token).None?)
  {
    if UniqueTokens(s.verificationTokens) {
      RemovedTokenGone(s.verificationTokens, token);
    }
  }

  /**
   * `resendVerificationEmail`: an unknown email and an already verified user
   * are refused without writes; otherwise the user's only verification token
   * is the new one, other users keep theirs, and a failed mail still leaves
   * the new token in place.
   */
  lemma ResendOutcomes(s: AuthState, email: string, token: string, tokenId: Id, now: int, hours: int, mail: Mail)
    ensures var o := ResendSpec(s, email, token, tokenId, now, hours, mail);
            var found := Users.FindUser(s.users, Users.ByEmail(email));
            (found.None? ==> o == AuthOutcome(Err(HttpError(NotFound, "User not found")), s))
            && (found.Some? && found.value.emailVerifiedAt.Some?
                ==> o == AuthOutcome(Err(HttpError(BadRequest, "Email already verified")), s))
            && (found.Some? && found.value.emailVerifiedAt.None? ==>
                  var issued := Token(tokenId, found.value.id, token, ExpiresAt(now, hours));
                  var after := o.state.verificationTokens;
                  o.result == (if mail == Undeliverable then Err(Unexpected) else Ok(true))
                  && o.state.users == s.users && o.state.resetTokens == s.resetTokens
                  && issued in after
                  && (forall k :: 0 <= k < |after| && after[k].userId == found.value.id ==> after[k] == issued)
                  && (forall k :: 0 <= k < |after| && after[k] != issued ==> after[k] in s.verificationTokens)
                  && (forall k :: 0 <= k < |s.verificationTokens| && s.verificationTokens[k].userId != found.value.id
                        ==> s.verificationTokens[k] in after))
  {
  }

  /** A wrong password raises the counter by one; the message says blocked exactly when it reaches the maximum. */
  lemma WrongPasswordCounts(s: AuthState, email: string, password: string, compare: (string, string) -> bool,
                            maxAttempts: int, sign: Id -> string)
    requires Users.FindUser(s.users, Users.ByEmail(email)).Some?
    requires !compare(password, Users.FindUser(s.users, Users.ByEmail(email)).value.password)
    ensures var user := Users.FindUser(s.users, Users.ByEmail(email)).value;
            var i := Users.FindRow(s.users, user.id).value;
            var o := LoginSpec(s, email, password, compare, maxAttempts, sign);
            var count := s.users[i].invalidPasswordAttempts + 1;
            o.state.users == s.users[i := s.users[i].(invalidPasswordAttempts := count)]
            && o.result == Err(HttpError(Unauthorized, if count >= maxAttempts then AccountBlocked else InvalidCredentials))
            && o.state.resetTokens == s.resetTokens
  {
    var user := Users.FindUser(s.users, Users.ByEmail(email)).value;
    var k :| 0 <= k < |s.users| && s.users[k] == user;
    assert s.users[k].id == user.id;
    var i := Users.FindRow(s.users, user.id).value;
    var o := Users.UpdateAttemptsSpec(s.users, user.id, 1, Users.Increment);
    var count := s.users[i].invalidPasswordAttempts + 1;
    assert o.result == Ok(s.users[i].(invalidPasswordAttempts := count));
    assert o.users == s.users[i := s.users[i].(invalidPasswordAttempts := count)];
  }

  /**
   * A right password sets the counter to 0 whatever it was, before the
   * email-verified check; the login then succeeds exactly for a verified
   * user, and a success clears the user's reset tokens.
   */
  lemma RightPasswordResetsCounter(s: AuthState, email: string, password: string, compare: (string, string) -> bool,
                                   maxAttempts: int, sign: Id -> string)
    requires Users.FindUser(s.users, Users.ByEmail(email)).Some?
    requires compare(password, Users.FindUser(s.users, Users.ByEmail(email)).value.password)
    ensures var user := Users.FindUser(s.users, Users.ByEmail(email)).value;
            var i := Users.FindRow(s.users, user.id).value;
            var o := LoginSpec(s, email, password, compare, maxAttempts, sign);
            o.state.users == s.users[i := s.users[i].(invalidPasswordAttempts := 0)]
            && (o.result.Ok? <==> user.emailVerifiedAt.Some?)
            && (o.result.Err? ==> o.result.error == HttpError(Unauthorized, VerifyFirst) && o.state.resetTokens == s.resetTokens)
            && (o.result.Ok? ==> o.result.value.accessToken == sign(user.id)
                                 && forall k :: 0 <= k < |o.state.resetTokens| ==> o.state.resetTokens[k].userId != user.id)
  {
    var user := Users.FindUser(s.users, Users.ByEmail(email)).value;
    var k :| 0 <= k < |s.users| && s.users[k] == user;
    assert s.users[k].id == user.id;
  }

  /** An unknown email is refused and nothing changes. */
  lemma UnknownEmailRefused(s: AuthState, email: string, password: string, compare: (string, string) -> bool,
                            maxAttempts: int, sign: Id -> string)
    requires Users.FindUser(s.users, Users.ByEmail(email)).None?
    ensures LoginSpec(s, email, password, compare, maxAttempts, sign) == AuthOutcome(Err(HttpError(Unauthorized, InvalidCredentials)), s)
  {
  }

  /** `forgotPassword` answers true either way; only a known user gets a (single) reset token. */
  lemma ForgotPasswordNeverLeaks(s: AuthState, email: string, token: string, tokenId: Id, now: int, hours: int)
    requires OnePerUser(s.resetTokens)
    ensures var o := ForgotPasswordSpec(s, email, token, tokenId, now, hours, Delivered);
            o.result == Ok(true)
            && (Users.FindUser(s.users, Users.ByEmail(email)).None? ==> o.state == s)
            && OnePerUser(o.state.resetTokens)
  {
    var user := Users.FindUser(s.users, Users.ByEmail(email));
    if user.Some? {
      IssueKeepsOnePerUser(s.resetTokens, user.value.id, token, tokenId, ExpiresAt(now, hours));
    }
  }

  /** `resetPassword` applies the expiry rule and consumes the token. */
  lemma {:induction false} ResetPasswordSingleUse(s: AuthState, token: string, hashedPassword: string, now: int, later: int)
    requires UniqueTokens(s.resetTokens)
    requires FindToken(s.resetTokens, token).Some?
    ensures var o := ResetPasswordSpec(s, token, hashedPassword, now);
            var t := s.resetTokens[FindToken(s.resetTokens, token).value];
            (Expired(t, now) ==> o.result == Err(HttpError(BadRequest, ResetExpired)) && o.state.users == s.users)
            && (Expired(t, now) || o.result.Ok? ==>
                  ResetPasswordSpec(o.state, token, hashedPassword, later).result == Err(HttpError(NotFound, InvalidToken)))
  {
    RemovedTokenGone(s.resetTokens, token);
  }

  /**
   * As written, a registration whose verification mail fails keeps the new
   * user, so registering again with the same email is refused.
   */
  lemma RegisterMailFailureKeepsUser(s: AuthState, dto: Users.CreateUserDto, hashedPassword: string, hashedMobile: string,
                                     newId: Id, prefsId: Id, token: string, tokenId: Id, now: int, hours: int,
                                     retryId: Id, retryPrefsId: Id)
    requires Users.CreateSpec(s.users, s.prefs, dto, hashedPassword, hashedMobile, newId, prefsId).result.Ok?
    ensures var o := RegisterSpec(s, dto, hashedPassword, hashedMobile, newId, prefsId, token, tokenId, now, hours, Undeliverable);
            o.result == Err(Unexpected)
            && Users.CreateSpec(o.state.users, o.state.prefs, dto, hashedPassword, hashedMobile, retryId, retryPrefsId).result
               == Err(HttpError(Conflict, "Email already exists"))
  {
    var o := RegisterSpec(s, dto, hashedPassword, hashedMobile, newId, prefsId, token, tokenId, now, hours, Undeliverable);
    var u := Users.NewUser(dto, hashedPassword, hashedMobile, newId);
    assert o.state.users[|s.users|] == u;
    assert Users.Live(u) && Users.HasKey(u, Users.ByEmail(dto.email));
  }

  /** With the clean-up, a failed registration leaves the user table as it was, so the user can register again. */
  lemma {:induction false} RegisterFixedRestoresUsers(s: AuthState, dto: Users.CreateUserDto, hashedPassword: string,
                                                      hashedMobile: string, newId: Id, prefsId: Id, token: string,
                                                      tokenId: Id, now: int, hours: int)
    requires Users.FindRow(s.users, newId).None?
    requires Users.CreateSpec(s.users, s.prefs, dto, hashedPassword, hashedMobile, newId, prefsId).result.Ok?
    ensures var o := RegisterFixedSpec(s, dto, hashedPassword, hashedMobile, newId, prefsId, token, tokenId, now, hours, Undeliverable);
            o.result == Err(HttpError(InternalServerError, RegisterMailFailed))
            && o.state.users == s.users
  {
    var u := Users.NewUser(dto, hashedPassword, hashedMobile, newId);
    Users.CreateAddsUserAndPreferences(s.users, s.prefs, dto, hashedPassword, hashedMobile, newId, prefsId);
    var written := RegisterSpec(s, dto, hashedPassword, hashedMobile, newId, prefsId, token, tokenId, now, hours, Undeliverable);
    assert written.result == Err(Unexpected) && written.state.users == s.users + [u];
    Users.RemoveAppendedRow(s.users, u);
  }

  // ---------------------------------------------------------------------
  // The service over its token tables
  // ---------------------------------------------------------------------

  class AuthService {
    var verificationTokens: seq<Token>
    var resetTokens: seq<Token>
    const usersService: Users.UsersService

    constructor (usersService: Users.UsersService)
      ensures verificationTokens == [] && resetTokens == [] && this.usersService == usersService
    {
      verificationTokens := [];
      resetTokens := [];
      this.usersService := usersService;
    }

    function State(): AuthState
      reads this, usersService, usersService.preferences
    {
      AuthState(usersService.users, usersService.preferences.prefs, verificationTokens, resetTokens)
    }

    method CreateEmailVerificationToken(userId: Id, token: string, tokenId: Id, now: int, hours: int) returns (t: string)
      modifies this
      ensures t == token && resetTokens == old(resetTokens)
      ensures verificationTokens == IssueToken(old(verificationTokens), userId, token, tokenId, ExpiresAt(now, hours))
    {
      verificationTokens := WithoutUser(verificationTokens, userId);
      verificationTokens := verificationTokens + [Token(tokenId, userId, token, ExpiresAt(now, hours))];
      return token;
    }

    method CreatePasswordResetToken(userId: Id, token: string, tokenId: Id, now: int, hours: int) returns (t: string)
      modifies this
      ensures t == token && verificationTokens == old(verificationTokens)
      ensures resetTokens == IssueToken(old(resetTokens), userId, token, tokenId, ExpiresAt(now, hours))
    {
      resetTokens := WithoutUser(resetTokens, userId);
      resetTokens := resetTokens + [Token(tokenId, userId, token, ExpiresAt(now, hours))];
      return token;
    }

    method Register(dto: Users.CreateUserDto, hashedPassword: string, hashedMobile: string, newId: Id, prefsId: Id,
                    token: string, tokenId: Id, now: int, hours: int, mail: Mail) returns (r: Result<Registered>)
      modifies this, usersService, usersService.preferences
      ensures AuthOutcome(r, State())
              == RegisterSpec(old(State()), dto, hashedPassword, hashedMobile, newId, prefsId, token, tokenId, now, hours, mail)
    {
      var created := usersService.Create(dto, hashedPassword, hashedMobile, newId, prefsId);
      match created {
        case Err(e) =>
          return Err(e);
        case Ok(c) =>
          var t := CreateEmailVerificationToken(c.user.id, token, tokenId, now, hours);
          if mail == Undeliverable {
            return Err(Unexpected);
          }
          return Ok(Registered(c.user.id, c.user.firstName, c.user.lastName, c.user.email, c.preferencesId));
      }
    }

    method VerifyEmail(token: string, email: string, now: int) returns (r: Result<bool>)
      modifies this, usersService
      ensures AuthOutcome(r, State()) == VerifyEmailSpec(old(State()), token, email, now)
    {
      if token == "" {
        return Err(HttpError(BadRequest, "Token is required"));
      }
      if email == "" {
        return Err(HttpError(BadRequest, "Email is required"));
      }
      var i := FindToken(verificationTokens, token);
      if i.None? {
        return Err(HttpError(NotFound, InvalidToken));
      }
      var t := verificationTokens[i.value];
      var u := Users.FindRow(usersService.users, t.userId);
      if u.None? {
        return Err(Unexpected);
      }
      if usersService.users[u.value].email != email {
        return Err(HttpError(BadRequest, InvalidToken));
      }
      if Expired(t, now) {
        verificationTokens := RemoveAt(verificationTokens, i.value);
        return Err(HttpError(BadRequest, VerificationExpired));
      }
      var marked := usersService.MarkEmailAsVerified(t.userId, now);
      match marked {
        case Err(e) =>
          return Err(e);
        case Ok(_) =>
          verificationTokens := RemoveAt(verificationTokens, i.value);
          return Ok(true);
      }
    }

    method ResendVerificationEmail(email: string, token: string, tokenId: Id, now: int, hours: int, mail: Mail)
      returns (r: Result<bool>)
      modifies this
      ensures AuthOutcome(r, State()) == ResendSpec(old(State()), email, token, tokenId, now, hours, mail)
    {
      var user := Users.FindUser(usersService.users, Users.ByEmail(email));
      if user.None? {
        return Err(HttpError(NotFound, "User not found"));
      }
      if user.value.emailVerifiedAt.Some? {
        return Err(HttpError(BadRequest, "Email already verified"));
      }
      var t := CreateEmailVerificationToken(user.value.id, token, tokenId, now, hours);
      if mail == Undeliverable {
        return Err(Unexpected);
      }
      return Ok(true);
    }

    method Login(email: string, password: string, compare: (string, string) -> bool, maxAttempts: int,
                 sign: Id -> string) returns (r: Result<LoginResult>)
      modifies this, usersService
      ensures AuthOutcome(r, State()) == LoginSpec(old(State()), email, password, compare, maxAttempts, sign)
    {
      var found := Users.FindUser(usersService.users, Users.ByEmail(email));
      if found.None? {
        return Err(HttpError(Unauthorized, InvalidCredentials));
      }
      var user := found.value;
      if !compare(password, user.password) {
        var updated := usersService.UpdateInvalidPasswordAttempts(user.id, 1, Users.Increment);
        match updated {
          case Err(e) =>
            return Err(e);
          case Ok(v) =>
            if v.invalidPasswordAttempts >= maxAttempts {
              return Err(HttpError(Unauthorized, AccountBlocked));
            }
            return Err(HttpError(Unauthorized, InvalidCredentials));
        }
      }
      var reset := usersService.UpdateInvalidPasswordAttempts(user.id, 0, Users.Set);
      match reset {
        case Err(e) =>
          return Err(e);
        case Ok(_) =>
          if user.emailVerifiedAt.None? {
            return Err(HttpError(Unauthorized, VerifyFirst));
          }
          resetTokens := WithoutUser(resetTokens, user.id);
          return Ok(LoginResult(sign(user.id), user.id, user.email, user.username, user.firstName, user.lastName, user.role));
      }
    }

    method ForgotPassword(email: string, token: string, tokenId: Id, now: int, hours: int, mail: Mail)
      returns (r: Result<bool>)
      modifies this
      ensures AuthOutcome(r, State()) == ForgotPasswordSpec(old(State()), email, token, tokenId, now, hours, mail)
    {
      var user := Users.FindUser(usersService.users, Users.ByEmail(email));
      if user.None? {
        return Ok(true);
      }
      var t := CreatePasswordResetToken(user.value.id, token, tokenId, now, hours);
      if mail == Undeliverable {
        return Err(Unexpected);
      }
      return Ok(true);
    }

    method ResetPassword(token: string, hashedPassword: string, now: int) returns (r: Result<bool>)
      modifies this, usersService
      ensures AuthOutcome(r, State()) == ResetPasswordSpec(old(State()), token, hashedPassword, now)
    {
      var i := FindToken(resetTokens, token);
      if i.None? {
        return Err(HttpError(NotFound, InvalidToken));
      }
      var t := resetTokens[i.value];
      if Expired(t, now) {
        resetTokens := RemoveAt(resetTokens, i.value);
        return Err(HttpError(BadRequest, ResetExpired));
      }
      var updated := usersService.UpdatePassword(hashedPassword, t.userId);
      match updated {
        case Err(e) =>
          return Err(e);
        case Ok(_) =>
          resetTokens := RemoveAt(resetTokens, i.value);
          return Ok(true);
      }
    }
  }
}
