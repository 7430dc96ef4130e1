/** The authentication service's rules: registration with unique e-mail
    addresses, login bound to a single active device, logout from that
    device, and the remaining lifetime of an access token. The user store is
    a sequence of records; bcrypt and JWT decoding are inputs. */
module AuthService {
  import opened Wrappers
  import opened Users
  import opened JwtStrategy
  import opened Config
  import JsText

  /** The HTTP exceptions the service throws, with their messages. */
  datatype AuthError =
    | BadRequest(message: string)
    | Unauthorized(message: string)
    | Forbidden(message: string)
    | Conflict(message: string)

  const InvalidCredentials: string := "Invalid credentials"

  /** No two stored users share an e-mail address. */
  ghost predicate EmailsUnique(users: seq<UserRecord>)
  {
    forall i, j | 0 <= i < j < |users| :: users[i].email != users[j].email
  }

  /** The key an e-mail address is stored and looked up under. The schema
      declares `email` with `lowercase: true`, so Mongoose lower-cases the
      address both when a user is saved and when a query filters on it. */
  function EmailKey(email: string): (k: string)
    ensures |k| == |email|
  {
    if email == [] then [] else [LowerLetter(email[0])] + EmailKey(email[1..])
  }

  /** An ASCII capital letter made small; any other character kept. */
  function LowerLetter(c: char): char
  {
    if 'A' <= c <= 'Z' then (c as int + 32) as char else c
  }

  /** The key is the address lower-cased, and folding it again changes
      nothing. */
  lemma {:induction false} EmailKeyIsLowerCase(email: string)
    ensures EmailKey(email) == JsText.ToLowerAscii(email)
    ensures EmailKey(EmailKey(email)) == EmailKey(email)
  {
    if email != [] {
      EmailKeyIsLowerCase(email[1..]);
      var k := EmailKey(email);
      assert k[1..] == EmailKey(email[1..]);
      assert EmailKey(k) == [LowerLetter(k[0])] + EmailKey(k[1..]);
    }
  }

  /** The document `create({email, passwordHash})` saves: the schema's
      defaults (role user, status pending, not approved) and nothing else. */
  function NewUser(id: string, email: string, passwordHash: string): (u: UserRecord)
    ensures u.id == id && u.email == email && u.passwordHash == passwordHash
    ensures u.role == RoleUser && u.status == Pending && !u.approved
    ensures u.activeDeviceId.None? && u.rejectionReason.None?
    ensures u.approvedAt.None? && u.rejectedAt.None? && u.approvalEmailSentAt.None?
  {
    UserRecord(id, email, passwordHash, "", "", "", 0, 0, RoleUser, Pending, false,
               None, None, None, None, None)
  }

  /** `register`: an e-mail already stored is refused and nothing is
      written; otherwise the new user is appended. `id` is the identifier
      the store assigns and `passwordHash` the bcrypt hash of the password. */
  function RegisterStep(users: seq<UserRecord>, id: string, email: string, passwordHash: string)
    : (r: (Result<UserRecord, AuthError>, seq<UserRecord>))
    ensures r.0.Err? <==> exists j | 0 <= j < |users| :: users[j].email == EmailKey(email)
    ensures r.0.Err? ==> r.0.error.BadRequest? && r.1 == users
    ensures r.0.Ok? ==> r.1 == users + [r.0.value]
    ensures r.0.Ok? ==> r.0.value.email == EmailKey(email) && r.0.value.status == Pending
                        && r.0.value.role == RoleUser && !r.0.value.approved
                        && r.0.value.activeDeviceId.None?
  {
    match FindFirst(users, true, EmailKey(email))
    case Some(_) => (Err(BadRequest("User with this email already exists")), users)
    case None =>
      var u := NewUser(id, EmailKey(email), passwordHash);
      (Ok(u), users + [u])
  }

  /** Registration keeps e-mail addresses unique. */
  lemma RegisterKeepsEmailsUnique(users: seq<UserRecord>, id: string, email: string, passwordHash: string)
    requires EmailsUnique(users)
    ensures EmailsUnique(RegisterStep(users, id, email, passwordHash).1)
  {
    var r := RegisterStep(users, id, email, passwordHash);
    if r.0.Ok? {
      assert forall j | 0 <= j < |users| :: r.1[j] == users[j];
      assert r.1[|users|].email == EmailKey(email);
    }
  }

  /** Addresses that differ only in the case of their letters name one
      account: once one spelling is registered the other is refused, and
      both log in alike. */
  lemma EmailCaseIgnored(users: seq<UserRecord>, id: string, id2: string, e1: string, e2: string,
                         h1: string, h2: string, passwordMatches: string -> bool, deviceId: string)
    requires EmailKey(e1) == EmailKey(e2)
    requires RegisterStep(users, id, e1, h1).0.Ok?
    ensures RegisterStep(RegisterStep(users, id, e1, h1).1, id2, e2, h2).0.Err?
    ensures deviceId != "" ==>
      LoginStep(users, e1, passwordMatches, deviceId) == LoginStep(users, e2, passwordMatches, deviceId)
  {
    var s1 := RegisterStep(users, id, e1, h1).1;
    assert s1[|users|].email == EmailKey(e2);
  }

  /** A successful login: the user as stored afterwards and the claims
      signed into the access token. */
  datatype LoginOk = LoginOk(user: UserRecord, claims: JwtPayload)

  /** `login`: the user is looked up by e-mail and the password checked
      (`passwordMatches` stands for `bcrypt.compare` against a stored hash);
      an unapproved user is refused, and so is a login from a device other
      than the active one. The active device is written only when it
      changes. */
  function LoginStep(users: seq<UserRecord>, email: string, passwordMatches: string -> bool,
                     deviceId: string): (r: (Result<LoginOk, AuthError>, seq<UserRecord>))
    requires deviceId != ""
    ensures r.0.Err? ==> r.1 == users
    ensures |r.1| == |users|
  {
    match FindFirst(users, true, EmailKey(email))
    case None => (Err(Unauthorized(InvalidCredentials)), users)
    case Some(i) =>
      var u := users[i];
      if !passwordMatches(u.passwordHash) then (Err(Unauthorized(InvalidCredentials)), users)
      else if !u.approved then (Err(Forbidden("User is not approved yet")), users)
      else if Truthy(u.activeDeviceId) && u.activeDeviceId != Some(deviceId) then
        (Err(Conflict("User is already logged in from another device")), users)
      else
        var stored := if u.activeDeviceId != Some(deviceId) then users[i := u.(activeDeviceId := Some(deviceId))]
                      else users;
        var v := u.(activeDeviceId := Some(deviceId));
        (Ok(LoginOk(v, JwtPayload(u.id, u.role, deviceId))), stored)
  }

  /** An unknown e-mail and a wrong password get the same answer, so a
      caller cannot tell which it was. */
  lemma BadCredentialsIndistinguishable(users: seq<UserRecord>, email: string,
                                        passwordMatches: string -> bool, deviceId: string)
    requires deviceId != ""
    requires (forall j | 0 <= j < |users| :: users[j].email != EmailKey(email))
             || (exists j | 0 <= j < |users| :: users[j].email == EmailKey(email)
                  && (forall k | 0 <= k < j :: users[k].email != EmailKey(email))
                  && !passwordMatches(users[j].passwordHash))
    ensures LoginStep(users, email, passwordMatches, deviceId) == (Err(Unauthorized(InvalidCredentials)), users)
  {
    var f := FindFirst(users, true, EmailKey(email));
    if f.Some? {
      var j :| 0 <= j < |users| && users[j].email == EmailKey(email)
               && (forall k | 0 <= k < j :: users[k].email != EmailKey(email))
               && !passwordMatches(users[j].passwordHash);
      assert f.value == j;
    }
  }

  /** The outcome of a login, decided by the matching record. */
  lemma LoginOutcomes(users: seq<UserRecord>, email: string, passwordMatches: string -> bool,
                      deviceId: string, i: nat)
    requires deviceId != ""
    requires FindFirst(users, true, EmailKey(email)) == Some(i)
    ensures var (r, after) := LoginStep(users, email, passwordMatches, deviceId);
      && (r.Err? && r.error.Forbidden? <==> passwordMatches(users[i].passwordHash) && !users[i].approved)
      && (r.Err? && r.error.Conflict? <==>
            && passwordMatches(users[i].passwordHash) && users[i].approved
            && Truthy(users[i].activeDeviceId) && users[i].activeDeviceId != Some(deviceId))
      && (r.Ok? ==> r.value.user.activeDeviceId == Some(deviceId) && after[i] == r.value.user
                    && r.value.claims == JwtPayload(users[i].id, users[i].role, deviceId)
                    && (forall j | 0 <= j < |users| && j != i :: after[j] == users[j]))
      && (r.Ok? ==> (after == users <==> users[i].activeDeviceId == Some(deviceId)))
  {
    var (r, after) := LoginStep(users, email, passwordMatches, deviceId);
    if r.Ok? && after == users {
      assert after[i].activeDeviceId == Some(deviceId);
    }
  }

  /** `logout`: the user must exist and be signed in from exactly this
      device; the active device is then removed. */
  function LogoutStep(users: seq<UserRecord>, userId: string, deviceId: string)
    : (r: (Result<(), AuthError>, seq<UserRecord>))
    ensures r.0.Err? ==> r.1 == users
    ensures |r.1| == |users|
  {
    match FindFirst(users, false, userId)
    case None => (Err(Unauthorized("User not found")), users)
    case Some(i) =>
      var u := users[i];
      if !Truthy(u.activeDeviceId) then (Err(Conflict("User is not logged in from any device")), users)
      else if u.activeDeviceId != Some(deviceId) then
        (Err(Conflict("User is logged in from a different device")), users)
      else (Ok(()), users[i := u.(activeDeviceId := None)])
  }

  /** Logout succeeds exactly when the caller's device is the active one,
      and then clears it and nothing else. */
  lemma LogoutOutcomes(users: seq<UserRecord>, userId: string, deviceId: string, i: nat)
    requires FindFirst(users, false, userId) == Some(i)
    ensures var (r, after) := LogoutStep(users, userId, deviceId);
      && (r.Ok? <==> users[i].activeDeviceId == Some(deviceId) && deviceId != "")
      && (r.Ok? ==> after == users[i := users[i].(activeDeviceId := None)])
  {
  }

  /** One active device at a time: after a login from one device, a login
      from another device is refused. */
  lemma SecondDeviceRefused(users: seq<UserRecord>, email: string, passwordMatches: string -> bool,
                            d1: string, d2: string)
    requires d1 != "" && d2 != "" && d1 != d2
    requires LoginStep(users, email, passwordMatches, d1).0.Ok?
    ensures var s1 := LoginStep(users, email, passwordMatches, d1).1;
      LoginStep(s1, email, passwordMatches, d2).0 == Err(Conflict("User is already logged in from another device"))
  {
    var i := FindFirst(users, true, EmailKey(email)).value;
    var s1 := LoginStep(users, email, passwordMatches, d1).1;
    LoginOutcomes(users, email, passwordMatches, d1, i);
    SameKeysSameFind(users, s1, i, true, EmailKey(email));
  }

  /** No two stored users share an id. */
  ghost predicate IdsUnique(users: seq<UserRecord>)
  {
    forall i, j | 0 <= i < j < |users| :: users[i].id != users[j].id
  }

  /** Once the device that logged in logs out, another device may log in. */
  lemma LogoutFreesTheAccount(users: seq<UserRecord>, email: string, passwordMatches: string -> bool,
                              d1: string, d2: string)
    requires IdsUnique(users)
    requires d1 != "" && d2 != ""
    requires LoginStep(users, email, passwordMatches, d1).0.Ok?
    ensures var s1 := LoginStep(users, email, passwordMatches, d1).1;
      var id := LoginStep(users, email, passwordMatches, d1).0.value.user.id;
      && LogoutStep(s1, id, d1).0.Ok?
      && LoginStep(LogoutStep(s1, id, d1).1, email, passwordMatches, d2).0.Ok?
  {
    var i := FindFirst(users, true, EmailKey(email)).value;
    var s1 := LoginStep(users, email, passwordMatches, d1).1;
    var id := users[i].id;
    LoginOutcomes(users, email, passwordMatches, d1, i);
    SameKeysSameFind(users, s1, i, true, EmailKey(email));
    SameKeysSameFind(users, s1, i, false, id);
    UniqueIdFound(users, i);
    var s2 := LogoutStep(s1, id, d1).1;
    assert s2 == s1[i := s1[i].(activeDeviceId := None)];
    SameKeysSameFind(s1, s2, i, true, EmailKey(email));
  }

  /** With unique ids, looking a user up by its id finds that user. */
  lemma UniqueIdFound(users: seq<UserRecord>, i: nat)
    requires IdsUnique(users) && i < |users|
    ensures FindFirst(users, false, users[i].id) == Some(i)
  {
    assert KeyOf(users[i], false) == users[i].id;
  }

  /** Rewriting one record without touching its e-mail or id leaves every
      lookup where it was. */
  lemma SameKeysSameFind(a: seq<UserRecord>, b: seq<UserRecord>, i: nat, byEmail: bool, value: string)
    requires |a| == |b| && i < |a|
    requires forall j | 0 <= j < |a| && j != i :: b[j] == a[j]
    requires b[i].email == a[i].email && b[i].id == a[i].id
    ensures FindFirst(b, byEmail, value) == FindFirst(a, byEmail, value)
  {
    forall j | 0 <= j < |a| ensures KeyOf(b[j], byEmail) == KeyOf(a[j], byEmail) {
      if j != i { assert b[j] == a[j]; }
    }
    FindFirstByKeys(a, b, byEmail, value);
  }

  /** The token part of `getMe`'s answer. */
  datatype TokenInfo = TokenInfo(expiresAtUnix: int, remainingMs: int, remainingSeconds: int)

  /** `getMe`'s token info: none without a token or without a numeric
      `exp` claim (`exp` is `None` when decoding fails or the claim is not
      a number); otherwise the lifetime left at `nowMs`, never negative, in
      milliseconds and in whole seconds. */
  function TokenInfoAt(token: Option<string>, exp: Option<int>, nowMs: int): (t: Option<TokenInfo>)
    ensures t.Some? <==> Truthy(token) && exp.Some?
    ensures t.Some? ==> t.value.expiresAtUnix == exp.value
    ensures t.Some? ==> t.value.remainingMs >= 0 && t.value.remainingSeconds >= 0
    ensures t.Some? ==> (t.value.remainingMs == 0 <==> exp.value * 1000 <= nowMs)
    ensures t.Some? && t.value.remainingMs > 0 ==> t.value.remainingMs == exp.value * 1000 - nowMs
    ensures t.Some? ==> t.value.remainingSeconds * 1000 <= t.value.remainingMs
                        < t.value.remainingSeconds * 1000 + 1000
  {
    if !Truthy(token) || exp.None? then None
    else
      var expiresAtMs := exp.value * 1000;
      var remainingMs := if expiresAtMs - nowMs > 0 then expiresAtMs - nowMs else 0;
      Some(TokenInfo(exp.value, remainingMs, remainingMs / 1000))
  }

  /** At a whole second the seconds left are the claim minus the current
      Unix time, or zero once expired; and time running on never makes the
      token last longer. */
  lemma RemainingTime(token: string, exp: int, nowMs: int, laterMs: int)
    requires token != "" && nowMs <= laterMs
    ensures var t := TokenInfoAt(Some(token), Some(exp), nowMs).value;
      nowMs % 1000 == 0 ==> t.remainingSeconds == if exp > nowMs / 1000 then exp - nowMs / 1000 else 0
    ensures TokenInfoAt(Some(token), Some(exp), laterMs).value.remainingMs
            <= TokenInfoAt(Some(token), Some(exp), nowMs).value.remainingMs
    ensures TokenInfoAt(Some(token), Some(exp), laterMs).value.remainingSeconds
            <= TokenInfoAt(Some(token), Some(exp), nowMs).value.remainingSeconds
  {
    var t := TokenInfoAt(Some(token), Some(exp), nowMs).value;
    if nowMs % 1000 == 0 && exp > nowMs / 1000 {
      var s := nowMs / 1000;
      assert nowMs == s * 1000;
      assert t.remainingMs == (exp - s) * 1000;
    }
    var u := TokenInfoAt(Some(token), Some(exp), laterMs).value;
    DivMono(u.remainingMs, t.remainingMs, 1000);
  }

  lemma DivMono(a: int, b: int, m: int)
    requires 0 <= a <= b && m > 0
    ensures a / m <= b / m
  {
    var qa, qb := a / m, b / m;
    assert (qa - qb) * m == qa * m - qb * m;
    if qa > qb {
      MulAtLeast(qa - qb, m);
    }
  }

  /** The user store the service reads and writes through `UsersService`. */
  class AuthService {
    var users: seq<UserRecord>

    constructor (users: seq<UserRecord>)
      ensures this.users == users
    {
      this.users := users;
    }

    method Register(id: string, email: string, passwordHash: string) returns (r: Result<UserRecord, AuthError>)
      modifies this
      ensures (r, users) == RegisterStep(old(users), id, email, passwordHash)
    {
      var existing := FindFirst(users, true, EmailKey(email));
      if existing.Some? {
        return Err(BadRequest("User with this email already exists"));
      }
      var u := NewUser(id, EmailKey(email), passwordHash);
      users := users + [u];
      return Ok(u);
    }

    method Login(email: string, passwordMatches: string -> bool, deviceId: string)
      returns (r: Result<LoginOk, AuthError>)
      requires deviceId != ""
      modifies this
      ensures (r, users) == LoginStep(old(users), email, passwordMatches, deviceId)
    {
      var found := FindFirst(users, true, EmailKey(email));
      if found.None? {
        return Err(Unauthorized(InvalidCredentials));
      }
      var i := found.value;
      var user := users[i];
      if !passwordMatches(user.passwordHash) {
        return Err(Unauthorized(InvalidCredentials));
      }
      if !user.approved {
        return Err(Forbidden("User is not approved yet"));
      }
      if Truthy(user.activeDeviceId) && user.activeDeviceId != Some(deviceId) {
        return Err(Conflict("User is already logged in from another device"));
      }
      if user.activeDeviceId != Some(deviceId) {
        users := users[i := user.(activeDeviceId := Some(deviceId))];
        user := user.(activeDeviceId := Some(deviceId));
      }
      return Ok(LoginOk(user, JwtPayload(user.id, user.role, deviceId)));
    }

    method Logout(userId: string, deviceId: string) returns (r: Result<(), AuthError>)
      modifies this
      ensures (r, users) == LogoutStep(old(users), userId, deviceId)
    {
      var found := FindFirst(users, false, userId);
      if found.None? {
        return Err(Unauthorized("User not found"));
      }
      var i := found.value;
      if !Truthy(users[i].activeDeviceId) {
        return Err(Conflict("User is not logged in from any device"));
      }
      if users[i].activeDeviceId != Some(deviceId) {
        return Err(Conflict("User is logged in from a different device"));
      }
      users := users[i := users[i].(activeDeviceId := None)];
      return Ok(());
    }
  }
}
