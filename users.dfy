/**
 * Users: the user table with soft deletion, lookups that skip soft-deleted
 * users, the public projection of a user, registration with its conflict
 * checks and preferences row, the role-grant matrix, and the
 * invalid-password counter.
 */
module Users {
  import opened Common
  import Preferences

  type Id = string

  datatype Role = RegularUser | Moderator | Admin | SuperAdmin

  /** A user row. `password` and `mobileNumber` hold hashes; a soft-deleted user has `deletedAt`. */
  datatype User = User(
    id: Id,
    firstName: string,
    lastName: string,
    email: string,
    username: string,
    mobileNumber: string,
    password: string,
    role: Role,
    emailVerifiedAt: Option<int>,
    deletedAt: Option<int>,
    invalidPasswordAttempts: int)

  predicate Live(u: User)
  {
    u.deletedAt.None?
  }

  // ---------------------------------------------------------------------
  // Lookups
  // ---------------------------------------------------------------------

  /** The unique columns a user is looked up by. */
  datatype Key = ById(id: Id) | ByEmail(email: string) | ByUsername(username: string) | ByMobile(mobile: string)

  predicate HasKey(u: User, key: Key)
  {
    match key
    case ById(id) => u.id == id
    case ByEmail(e) => u.email == e
    case ByUsername(n) => u.username == n
    case ByMobile(m) => u.mobileNumber == m
  }

  /** `findOne`, `findByEmail`, `findByUsername`, `findByMobileNumber`: the row with that key, unless soft-deleted. */
  function FindLive(users: seq<User>, key: Key): (r: Option<nat>)
    ensures r.Some? ==> r.value < |users| && Live(users[r.value]) && HasKey(users[r.value], key)
    ensures r.None? <==> forall k :: 0 <= k < |users| ==> !(Live(users[k]) && HasKey(users[k], key))
  {
    if users == [] then None
    else if Live(users[0]) && HasKey(users[0], key) then Some(0)
    else
      var rest := FindLive(users[1..], key);
      if rest.None? then None else Some(rest.value + 1)
  }

  function FindUser(users: seq<User>, key: Key): (r: Option<User>)
    ensures r.Some? ==> r.value in users && Live(r.value) && HasKey(r.value, key)
    ensures r.None? <==> forall k :: 0 <= k < |users| ==> !(Live(users[k]) && HasKey(users[k], key))
  {
    match FindLive(users, key)
    case None => None
    case Some(i) => Some(users[i])
  }

  /** Soft-deleting a user hides it from every lookup. */
  lemma SoftDeletedNeverFound(users: seq<User>, key: Key, i: nat, at: int)
    requires i < |users|
    requires forall k :: 0 <= k < |users| && k != i ==> !HasKey(users[k], key)
    ensures FindUser(users[i := users[i].(deletedAt := Some(at))], key).None?
  {
  }

  /** The fields a user is shown with: never the password or the mobile number. */
  datatype PublicUser = PublicUser(
    id: Id,
    firstName: string,
    lastName: string,
    email: string,
    username: string,
    role: Role,
    emailVerified: bool)

  function ToPublic(u: User): (p: PublicUser)
    ensures p.emailVerified <==> u.emailVerifiedAt.Some?
    ensures p.id == u.id && p.email == u.email && p.username == u.username && p.role == u.role
  {
    PublicUser(u.id, u.firstName, u.lastName, u.email, u.username, u.role, u.emailVerifiedAt.Some?)
  }

  /** `getOneById` / `getOneByUsername`. */
  function GetOne(users: seq<User>, key: Key): (r: Result<PublicUser>)
    ensures r.Err? <==> FindUser(users, key).None?
    ensures r.Err? ==> r.error == HttpError(NotFound, "User not found")
    ensures r.Ok? ==> r.value == ToPublic(FindUser(users, key).value)
  {
    match FindUser(users, key)
    case None => Err(HttpError(NotFound, "User not found"))
    case Some(u) => Ok(ToPublic(u))
  }

  // ---------------------------------------------------------------------
  // Role changes
  // ---------------------------------------------------------------------

  /** `ruleMap`: the roles an actor may take a user from and give a user. */
  function Grants(actor: Role): set<Role>
  {
    match actor
    case SuperAdmin => {RegularUser, Moderator, Admin}
    case Admin => {RegularUser, Moderator}
    case Moderator => {RegularUser}
    case RegularUser => {}
  }

  function Rank(r: Role): nat
  {
    match r
    case RegularUser => 0
    case Moderator => 1
    case Admin => 2
    case SuperAdmin => 3
  }

  /** The matrix is exactly "strictly below the actor's own rank". */
  lemma GrantsAreLowerRanks(actor: Role, r: Role)
    ensures r in Grants(actor) <==> Rank(r) < Rank(actor)
  {
  }

  /** Hence nobody grants SUPER_ADMIN, and nobody changes a peer or a superior. */
  lemma {:induction false} NoPromotionToPeer(actor: Role, target: Role, newRole: Role)
    requires Rank(target) >= Rank(actor) || Rank(newRole) >= Rank(actor)
    ensures !(target in Grants(actor) && newRole in Grants(actor))
  {
    GrantsAreLowerRanks(actor, target);
    GrantsAreLowerRanks(actor, newRole);
  }

  datatype Outcome<T> = Outcome(result: Result<T>, users: seq<User>)

  /** `user.update` by id (soft-deleted rows included), or the ORM's record-not-found error. */
  function FindRow(users: seq<User>, id: Id): (r: Option<nat>)
    ensures r.Some? ==> r.value < |users| && users[r.value].id == id
    ensures r.Some? ==> forall k :: 0 <= k < r.value ==> users[k].id != id
    ensures r.None? <==> forall k :: 0 <= k < |users| ==> users[k].id != id
  {
    if users == [] then None
    else if users[0].id == id then Some(0)
    else
      var rest := FindRow(users[1..], id);
      if rest.None? then None else Some(rest.value + 1)
  }

  function UpdateRow(users: seq<User>, id: Id, f: User -> User): (o: Outcome<User>)
    ensures o.result.Err? <==> FindRow(users, id).None?
    ensures o.result.Err? ==> o.result.error == DbError(RecordNotFound) && o.users == users
    ensures o.result.Ok? ==>
              var i := FindRow(users, id).value;
              o.result.value == f(users[i]) && o.users == users[i := f(users[i])]
  {
    match FindRow(users, id)
    case None => Outcome(Err(DbError(RecordNotFound)), users)
    case Some(i) => Outcome(Ok(f(users[i])), users[i := f(users[i])])
  }

  /** Overwriting the found row with one of the same id leaves it the row found. */
  lemma FindRowAfterWrite(users: seq<User>, id: Id, i: nat, v: User)
    requires FindRow(users, id) == Some(i) && v.id == id
    ensures FindRow(users[i := v], id) == Some(i)
  {
    var after := users[i := v];
    assert after[i].id == id;
    assert forall k :: 0 <= k < i ==> after[k] == users[k];
  }

  /** `remove`: a hard delete by id, or the ORM's record-not-found error. */
  function RemoveRow(users: seq<User>, id: Id): (o: Outcome<User>)
    ensures o.result.Err? <==> FindRow(users, id).None?
    ensures o.result.Err? ==> o.result.error == DbError(RecordNotFound) && o.users == users
    ensures o.result.Ok? ==>
              var i := FindRow(users, id).value;
              o.result.value == users[i] && o.users == users[..i] + users[i + 1..]
  {
    match FindRow(users, id)
    case None => Outcome(Err(DbError(RecordNotFound)), users)
    case Some(i) => Outcome(Ok(users[i]), users[..i] + users[i + 1..])
  }

  /** `updateRole`: both users are looked up, the actor's absence is reported first. */
  function UpdateRoleSpec(users: seq<User>, userId: Id, newRole: Role, current: Id): Outcome<User>
  {
    var actor := FindUser(users, ById(current));
    var target := FindUser(users, ById(userId));
    if actor.None? then Outcome(Err(HttpError(Unauthorized, "Unauthorized")), users)
    else if target.None? then Outcome(Err(HttpError(NotFound, "User not found")), users)
    else if target.value.role !in Grants(actor.value.role) || newRole !in Grants(actor.value.role) then
      Outcome(Err(HttpError(Forbidden, "You are not authorized to update role")), users)
    else UpdateRow(users, userId, (u: User) => u.(role := newRole))
  }

  /** A role change succeeds exactly when both roles are below the actor's, and changes only the role. */
  lemma UpdateRoleIff(users: seq<User>, userId: Id, newRole: Role, current: Id)
    ensures var o := UpdateRoleSpec(users, userId, newRole, current);
            var actor := FindUser(users, ById(current));
            var target := FindUser(users, ById(userId));
            (o.result.Ok? <==>
               actor.Some? && target.Some?
               && Rank(target.value.role) < Rank(actor.value.role) && Rank(newRole) < Rank(actor.value.role))
            && (o.result.Err? ==> o.users == users)
            && (o.result.Ok? ==>
                  var i := FindRow(users, userId).value;
                  o.users == users[i := users[i].(role := newRole)])
  {
    var actor := FindUser(users, ById(current));
    var target := FindUser(users, ById(userId));
    if actor.Some? && target.Some? {
      GrantsAreLowerRanks(actor.value.role, target.value.role);
      GrantsAreLowerRanks(actor.value.role, newRole);
      assert target.value in users;
    }
  }

  /** A missing actor is reported before a missing target. */
  lemma UnauthorizedBeforeNotFound(users: seq<User>, userId: Id, newRole: Role, current: Id)
    requires FindUser(users, ById(current)).None?
    ensures UpdateRoleSpec(users, userId, newRole, current).result == Err(HttpError(Unauthorized, "Unauthorized"))
  {
  }

  // ---------------------------------------------------------------------
  // The invalid-password counter
  // ---------------------------------------------------------------------

  datatype AttemptsUpdate = Increment | Decrement | Set

  function ApplyAttempts(current: int, attempts: int, kind: AttemptsUpdate): (r: int)
    ensures kind == Increment ==> r - current == attempts
    ensures kind == Decrement ==> current - r == attempts
    ensures kind == Set ==> r == attempts
  {
    match kind
    case Increment => current + attempts
    case Decrement => current - attempts
    case Set => attempts
  }

  /** `updateInvalidPasswordAttempts`, with the defaults of one attempt and `increment`. */
  function UpdateAttemptsSpec(users: seq<User>, id: Id, attempts: int := 1, kind: AttemptsUpdate := Increment)
    : Outcome<User>
  {
    UpdateRow(users, id, (u: User) => u.(invalidPasswordAttempts := ApplyAttempts(u.invalidPasswordAttempts, attempts, kind)))
  }

  /** With the defaults the counter goes up by one; only the counter changes. */
  lemma DefaultAttemptsIncrementByOne(users: seq<User>, id: Id)
    requires FindRow(users, id).Some?
    ensures var i := FindRow(users, id).value;
            var o := UpdateAttemptsSpec(users, id);
            o.users == users[i := users[i].(invalidPasswordAttempts := users[i].invalidPasswordAttempts + 1)]
  {
  }

  /** Incrementing then decrementing by the same amount restores the table. */
  lemma {:induction false} IncrementDecrementRestores(users: seq<User>, id: Id, n: int)
    requires FindRow(users, id).Some?
    ensures var once := UpdateAttemptsSpec(users, id, n, Increment).users;
            UpdateAttemptsSpec(once, id, n, Decrement).users == users
  {
    var i := FindRow(users, id).value;
    var bumped := users[i].(invalidPasswordAttempts := users[i].invalidPasswordAttempts + n);
    assert UpdateAttemptsSpec(users, id, n, Increment).users == users[i := bumped];
    FindRowAfterWrite(users, id, i, bumped);
  }

  // ---------------------------------------------------------------------
  // Registration
  // ---------------------------------------------------------------------

  datatype CreateUserDto = CreateUserDto(
    firstName: string,
    lastName: string,
    email: string,
    username: string,
    mobileNumber: string,
    password: string)

  /** What `create` returns: the public user and the id of its preferences row. */
  datatype CreatedUser = CreatedUser(user: PublicUser, preferencesId: Id)

  /** The user and preferences tables after a registration. */
  datatype Registration = Registration(result: Result<CreatedUser>, users: seq<User>, prefs: seq<Preferences.Preference>)

  /** The row a registration writes: the DTO with the password and the mobile number replaced by their hashes. */
  function NewUser(dto: CreateUserDto, hashedPassword: string, hashedMobile: string, newId: Id): (u: User)
    ensures u.id == newId && u.email == dto.email && u.username == dto.username && Live(u)
    ensures u.password == hashedPassword && u.mobileNumber == hashedMobile && u.role == RegularUser
    ensures u.invalidPasswordAttempts == 0 && u.emailVerifiedAt.None?
  {
    User(newId, dto.firstName, dto.lastName, dto.email, dto.username, hashedMobile, hashedPassword,
         RegularUser, None, None, 0)
  }

  /**
   * The columns `email`, `username` and `mobileNumber` are unique in the
   * table, and soft-deleted rows still hold their values: the row `u` would
   * repeat a value some row already holds.
   */
  predicate UniqueTaken(users: seq<User>, u: User)
  {
    exists k :: 0 <= k < |users|
      && (users[k].email == u.email || users[k].username == u.username || users[k].mobileNumber == u.mobileNumber)
  }

  /**
   * The part of `create` after the conflict checks: write the user, which the
   * unique columns refuse with P2002 when any row holds one of its values,
   * then its preferences row.
   */
  function Register(users: seq<User>, prefs: seq<Preferences.Preference>, dto: CreateUserDto,
                    hashedPassword: string, hashedMobile: string, newId: Id, prefsId: Id): (r: Registration)
    ensures UniqueTaken(users, NewUser(dto, hashedPassword, hashedMobile, newId))
            ==> r == Registration(Err(DbError(UniqueViolation)), users, prefs)
    ensures !UniqueTaken(users, NewUser(dto, hashedPassword, hashedMobile, newId))
            ==> r.users == users + [NewUser(dto, hashedPassword, hashedMobile, newId)]
    ensures r.result.Ok? <==> !UniqueTaken(users, NewUser(dto, hashedPassword, hashedMobile, newId))
                              && !Preferences.HasPreference(prefs, newId)
  {
    var u := NewUser(dto, hashedPassword, hashedMobile, newId);
    if UniqueTaken(users, u) then Registration(Err(DbError(UniqueViolation)), users, prefs)
    else
      var p := Preferences.CreateSpec(prefs, newId, prefsId);
      if p.result.Err? then Registration(Err(p.result.error), users + [u], p.prefs)
      else Registration(Ok(CreatedUser(ToPublic(u), p.result.value.id)), users + [u], p.prefs)
  }

  /**
   * `create` as written: email, then username, then mobile number must be
   * free. The mobile number is compared as given against the stored column,
   * which holds hashes.
   */
  function CreateSpec(users: seq<User>, prefs: seq<Preferences.Preference>, dto: CreateUserDto,
                      hashedPassword: string, hashedMobile: string, newId: Id, prefsId: Id): Registration
  {
    if FindUser(users, ByEmail(dto.email)).Some? then
      Registration(Err(HttpError(Conflict, "Email already exists")), users, prefs)
    else if FindUser(users, ByUsername(dto.username)).Some? then
      Registration(Err(HttpError(Conflict, "Username already exists")), users, prefs)
    else if FindUser(users, ByMobile(dto.mobileNumber)).Some? then
      Registration(Err(HttpError(Conflict, "Mobile number already exists")), users, prefs)
    else Register(users, prefs, dto, hashedPassword, hashedMobile, newId, prefsId)
  }

  /**
   * The first conflict, in the order email, username, mobile number, is
   * reported and nothing is written; past the three lookups, a value held by
   * a soft-deleted row makes the write fail with P2002, again writing nothing.
   */
  lemma CreateConflictOrder(users: seq<User>, prefs: seq<Preferences.Preference>, dto: CreateUserDto,
                            hashedPassword: string, hashedMobile: string, newId: Id, prefsId: Id)
    ensures var r := CreateSpec(users, prefs, dto, hashedPassword, hashedMobile, newId, prefsId);
            (FindUser(users, ByEmail(dto.email)).Some? ==> r.result == Err(HttpError(Conflict, "Email already exists")))
            && (FindUser(users, ByEmail(dto.email)).None? && FindUser(users, ByUsername(dto.username)).Some?
                ==> r.result == Err(HttpError(Conflict, "Username already exists")))
            && (FindUser(users, ByEmail(dto.email)).None? && FindUser(users, ByUsername(dto.username)).None?
                && FindUser(users, ByMobile(dto.mobileNumber)).None?
                && UniqueTaken(users, NewUser(dto, hashedPassword, hashedMobile, newId))
                ==> r.result == Err(DbError(UniqueViolation)))
            && (r.result.Err? && (r.result.error.DbError? || (r.result.error.HttpError? && r.result.error.kind == Conflict
                && r.result.error.message != "User preference already exists"))
                ==> r.users == users && r.prefs == prefs)
  {
  }

  /** An email held by any row, live or soft-deleted, is never registered again, and the refusal writes nothing. */
  lemma {:induction false} HeldEmailRefused(users: seq<User>, prefs: seq<Preferences.Preference>, dto: CreateUserDto,
                                            hashedPassword: string, hashedMobile: string, newId: Id, prefsId: Id, k: nat)
    requires k < |users| && users[k].email == dto.email
    ensures var r := CreateSpec(users, prefs, dto, hashedPassword, hashedMobile, newId, prefsId);
            r.result.Err? && r.users == users && r.prefs == prefs
            && (!Live(users[k]) && FindUser(users, ByEmail(dto.email)).None?
                && FindUser(users, ByUsername(dto.username)).None? && FindUser(users, ByMobile(dto.mobileNumber)).None?
                ==> r.result == Err(DbError(UniqueViolation)))
  {
    if FindUser(users, ByEmail(dto.email)).None? {
      assert !Live(users[k]) by {
        assert !(Live(users[k]) && HasKey(users[k], ByEmail(dto.email)));
      }
      if FindUser(users, ByUsername(dto.username)).None? && FindUser(users, ByMobile(dto.mobileNumber)).None? {
        assert UniqueTaken(users, NewUser(dto, hashedPassword, hashedMobile, newId));
      }
    }
  }

  /** Removing a row just appended under a fresh id gives the table back. */
  lemma RemoveAppendedRow(users: seq<User>, u: User)
    requires FindRow(users, u.id).None?
    ensures RemoveRow(users + [u], u.id).users == users
  {
    assert FindRow(users + [u], u.id) == Some(|users|);
    assert (users + [u])[..|users|] == users;
  }

  /** A successful registration adds one live user and its one preferences row. */
  lemma CreateAddsUserAndPreferences(users: seq<User>, prefs: seq<Preferences.Preference>, dto: CreateUserDto,
                                     hashedPassword: string, hashedMobile: string, newId: Id, prefsId: Id)
    requires CreateSpec(users, prefs, dto, hashedPassword, hashedMobile, newId, prefsId).result.Ok?
    ensures var r := CreateSpec(users, prefs, dto, hashedPassword, hashedMobile, newId, prefsId);
            r.users == users + [NewUser(dto, hashedPassword, hashedMobile, newId)]
            && r.prefs == prefs + [Preferences.Preference(prefsId, newId)]
            && r.result.value.preferencesId == prefsId && r.result.value.user.id == newId
            && !r.result.value.user.emailVerified
  {
  }

  /** A bcrypt hash begins with '$' ("$2b$…"). */
  predicate LooksHashed(s: string)
  {
    |s| > 0 && s[0] == '$'
  }

  /**
   * As written, the mobile-number check cannot fire against hashed rows: a
   * number that does not itself begin with '$' never equals a stored hash.
   */
  lemma MobileCheckNeverFires(users: seq<User>, prefs: seq<Preferences.Preference>, dto: CreateUserDto,
                              hashedPassword: string, hashedMobile: string, newId: Id, prefsId: Id)
    requires forall k :: 0 <= k < |users| ==> LooksHashed(users[k].mobileNumber)
    requires !LooksHashed(dto.mobileNumber)
    ensures CreateSpec(users, prefs, dto, hashedPassword, hashedMobile, newId, prefsId).result
            != Err(HttpError(Conflict, "Mobile number already exists"))
  {
    assert FindUser(users, ByMobile(dto.mobileNumber)).None?;
  }

  /** Into an empty table, a registration followed by one with other values and another id both succeed. */
  lemma {:induction false} TwoRegistrations(a: CreateUserDto, pa: string, ma: string, ida: Id, pfa: Id,
                                            b: CreateUserDto, pb: string, mb: string, idb: Id, pfb: Id)
    requires a.email != b.email && a.username != b.username && ma != mb && ma != b.mobileNumber && ida != idb
    ensures var first := CreateSpec([], [], a, pa, ma, ida, pfa);
            first.result.Ok? && CreateSpec(first.users, first.prefs, b, pb, mb, idb, pfb).result.Ok?
  {
    var u := NewUser(a, pa, ma, ida);
    assert !UniqueTaken([], u);
    var first := CreateSpec([], [], a, pa, ma, ida, pfa);
    assert first.users == [u] && first.prefs == [Preferences.Preference(pfa, ida)];
    assert FindUser([u], ByEmail(b.email)).None? && FindUser([u], ByUsername(b.username)).None?
           && FindUser([u], ByMobile(b.mobileNumber)).None?;
    assert !UniqueTaken([u], NewUser(b, pb, mb, idb));
    assert !Preferences.HasPreference(first.prefs, idb);
  }

  /** Two registrations with the same mobile number both succeed. */
  lemma DuplicateMobileAccepted()
    ensures var a := CreateUserDto("Ann", "Lee", "ann@x.az", "ann", "501234567", "Secret1!");
            var b := CreateUserDto("Bob", "Kay", "bob@x.az", "bob", "501234567", "Secret1!");
            var first := CreateSpec([], [], a, "$2b$p1", "$2b$m1", "u1", "p1");
            var second := CreateSpec(first.users, first.prefs, b, "$2b$p2", "$2b$m2", "u2", "p2");
            first.result.Ok? && second.result.Ok?
  {
    var a := CreateUserDto("Ann", "Lee", "ann@x.az", "ann", "501234567", "Secret1!");
    var b := CreateUserDto("Bob", "Kay", "bob@x.az", "bob", "501234567", "Secret1!");
    assert a.email != b.email && a.username != b.username && "$2b$m1" != "$2b$m2" && "$2b$m1" != b.mobileNumber
           && "u1" != "u2";
    TwoRegistrations(a, "$2b$p1", "$2b$m1", "u1", "p1", b, "$2b$p2", "$2b$m2", "u2", "p2");
  }

  /** The mobile number matches a stored hash, by the hashing library's comparison. */
  predicate MobileTaken(users: seq<User>, mobile: string, matchesHash: (string, string) -> bool)
  {
    exists k :: 0 <= k < |users| && Live(users[k]) && matchesHash(mobile, users[k].mobileNumber)
  }

  /** `create` with the mobile-number check made against the hashes. */
  function CreateFixedSpec(users: seq<User>, prefs: seq<Preferences.Preference>, dto: CreateUserDto,
                           hashedPassword: string, hashedMobile: string, newId: Id, prefsId: Id,
                           matchesHash: (string, string) -> bool): Registration
  {
    if FindUser(users, ByEmail(dto.email)).Some? then
      Registration(Err(HttpError(Conflict, "Email already exists")), users, prefs)
    else if FindUser(users, ByUsername(dto.username)).Some? then
      Registration(Err(HttpError(Conflict, "Username already exists")), users, prefs)
    else if MobileTaken(users, dto.mobileNumber, matchesHash) then
      Registration(Err(HttpError(Conflict, "Mobile number already exists")), users, prefs)
    else Register(users, prefs, dto, hashedPassword, hashedMobile, newId, prefsId)
  }

  /**
   * With the corrected check, a second registration of a number is refused
   * whenever the hash stored for the first one matches it.
   */
  lemma {:induction false} FixedRefusesDuplicateMobile(users: seq<User>, prefs: seq<Preferences.Preference>,
                                                       a: CreateUserDto, b: CreateUserDto,
                                                       pa: string, ma: string, ida: Id, prefa: Id,
                                                       pb: string, mb: string, idb: Id, prefb: Id,
                                                       matchesHash: (string, string) -> bool)
    requires CreateFixedSpec(users, prefs, a, pa, ma, ida, prefa, matchesHash).result.Ok?
    requires b.mobileNumber == a.mobileNumber && matchesHash(a.mobileNumber, ma)
    requires b.email != a.email && b.username != a.username
    ensures var first := CreateFixedSpec(users, prefs, a, pa, ma, ida, prefa, matchesHash);
            CreateFixedSpec(first.users, first.prefs, b, pb, mb, idb, prefb, matchesHash).result.Err?
  {
    var first := CreateFixedSpec(users, prefs, a, pa, ma, ida, prefa, matchesHash);
    assert first.users[|users|] == NewUser(a, pa, ma, ida);
    assert MobileTaken(first.users, b.mobileNumber, matchesHash);
  }

  // ---------------------------------------------------------------------
  // The service over its tables
  // ---------------------------------------------------------------------

  class UsersService {
    var users: seq<User>
    const preferences: Preferences.UserPreferencesService

    constructor (initial: seq<User>, preferences: Preferences.UserPreferencesService)
      ensures users == initial && this.preferences == preferences
    {
      users := initial;
      this.preferences := preferences;
    }

    function FindOne(id: Id): (r: Option<User>)
      reads this
      ensures r == FindUser(users, ById(id))
    {
      FindUser(users, ById(id))
    }

    method Create(dto: CreateUserDto, hashedPassword: string, hashedMobile: string, newId: Id, prefsId: Id)
      returns (r: Result<CreatedUser>)
      modifies this, preferences
      ensures Registration(r, users, preferences.prefs)
              == CreateSpec(old(users), old(preferences.prefs), dto, hashedPassword, hashedMobile, newId, prefsId)
    {
      if FindUser(users, ByEmail(dto.email)).Some? {
        return Err(HttpError(Conflict, "Email already exists"));
      }
      if FindUser(users, ByUsername(dto.username)).Some? {
        return Err(HttpError(Conflict, "Username already exists"));
      }
      if FindUser(users, ByMobile(dto.mobileNumber)).Some? {
        return Err(HttpError(Conflict, "Mobile number already exists"));
      }
      var u := NewUser(dto, hashedPassword, hashedMobile, newId);
      if UniqueTaken(users, u) {
        return Err(DbError(UniqueViolation));
      }
      users := users + [u];
      var p := preferences.Create(newId, prefsId);
      if p.Err? {
        return Err(p.error);
      }
      return Ok(CreatedUser(ToPublic(u), p.value.id));
    }

    method UpdateRole(userId: Id, newRole: Role, currentUserId: Id) returns (r: Result<User>)
      modifies this
      ensures Outcome(r, users) == UpdateRoleSpec(old(users), userId, newRole, currentUserId)
    {
      var actor := FindUser(users, ById(currentUserId));
      var target := FindUser(users, ById(userId));
      if actor.None? {
        return Err(HttpError(Unauthorized, "Unauthorized"));
      }
      if target.None? {
        return Err(HttpError(NotFound, "User not found"));
      }
      var allowed := Grants(actor.value.role);
      if target.value.role !in allowed || newRole !in allowed {
        return Err(HttpError(Forbidden, "You are not authorized to update role"));
      }
      var o := UpdateRow(users, userId, (u: User) => u.(role := newRole));
      users := o.users;
      r := o.result;
    }

    method UpdateInvalidPasswordAttempts(id: Id, attempts: int := 1, kind: AttemptsUpdate := Increment)
      returns (r: Result<User>)
      modifies this
      ensures Outcome(r, users) == UpdateAttemptsSpec(old(users), id, attempts, kind)
    {
      var o := UpdateAttemptsSpec(users, id, attempts, kind);
      users := o.users;
      r := o.result;
    }

    method MarkEmailAsVerified(userId: Id, now: int) returns (r: Result<User>)
      modifies this
      ensures Outcome(r, users) == UpdateRow(old(users), userId, (u: User) => u.(emailVerifiedAt := Some(now)))
    {
      var o := UpdateRow(users, userId, (u: User) => u.(emailVerifiedAt := Some(now)));
      users := o.users;
      r := o.result;
    }

    method Remove(id: Id) returns (r: Result<User>)
      modifies this
      ensures Outcome(r, users) == RemoveRow(old(users), id)
    {
      var o := RemoveRow(users, id);
      users := o.users;
      r := o.result;
    }

    /** `updatePassword`: a live user gets the new hash. */
    method UpdatePassword(hashedPassword: string, userId: Id) returns (r: Result<User>)
      modifies this
      ensures FindUser(old(users), ById(userId)).None? ==> r == Err(HttpError(NotFound, "User not found")) && users == old(users)
      ensures FindUser(old(users), ById(userId)).Some? ==>
                Outcome(r, users) == UpdateRow(old(users), userId, (u: User) => u.(password := hashedPassword))
    {
      if FindUser(users, ById(userId)).None? {
        return Err(HttpError(NotFound, "User not found"));
      }
      var o := UpdateRow(users, userId, (u: User) => u.(password := hashedPassword));
      users := o.users;
      r := o.result;
    }
  }
}
