/** The route guards of the backend: `ApprovedGuard`, which lets through
    admins and approved users signed in from the device their token names,
    and `AdminGuard`, which checks only the token's role. The store lookup
    `findById` is a search of the user sequence. */
module ApprovedGuard {
  import opened Wrappers
  import opened Users
  import opened JwtStrategy
  import AuthService

  /** Why a request is refused with 401. */
  datatype UnauthorizedReason = NotAuthenticated | UserNotFound | NotSignedIn | OtherDeviceOrSignedOut

  /** Why a request is refused with 403; one message per stored status. */
  datatype ForbiddenReason = AwaitingApproval | RequestRejected | Blocked | NotApproved | AdminOnly

  datatype Denial = Unauthorized(u: UnauthorizedReason) | Forbidden(f: ForbiddenReason)

  /** The 403 message for a status other than approved. */
  function StatusDenial(s: Status): ForbiddenReason
  {
    match s
    case Pending => AwaitingApproval
    case Rejected => RequestRejected
    case Archived => Blocked
    case _ => NotApproved
  }

  predicate IsAdmin(authUser: AuthUser, user: UserRecord)
  {
    authUser.role == RoleAdmin || user.role == RoleAdmin
  }

  /** `ApprovedGuard.canActivate`: authentication, existence, admin,
      status, then device, in that order; the first failing check decides. */
  function CanActivate(authUser: Option<AuthUser>, users: seq<UserRecord>): (r: Result<(), Denial>)
    ensures authUser.None? ==> r == Err(Unauthorized(NotAuthenticated))
    ensures authUser.Some? && FindFirst(users, false, authUser.value.userId).None? ==>
              r == Err(Unauthorized(UserNotFound))
    ensures r.Err? && r.error.Forbidden? ==>
              r.error.f != AdminOnly && r.error.f == StatusDenial(users[FindFirst(users, false, authUser.value.userId).value].status)
  {
    match authUser
    case None => Err(Unauthorized(NotAuthenticated))
    case Some(a) =>
      match FindFirst(users, false, a.userId)
      case None => Err(Unauthorized(UserNotFound))
      case Some(i) =>
        var user := users[i];
        if IsAdmin(a, user) then Ok(())
        else if user.status != Approved then Err(Forbidden(StatusDenial(user.status)))
        else if !Truthy(user.activeDeviceId) then Err(Unauthorized(NotSignedIn))
        else if user.activeDeviceId != Some(a.deviceId) then Err(Unauthorized(OtherDeviceOrSignedOut))
        else Ok(())
  }

  /** Once the user is found: an admin (by token or by record) always
      passes; anyone else passes exactly when approved and signed in from
      the token's device; a non-approved user is refused with the message
      of their status, before the device is looked at. */
  lemma FoundUserDecision(a: AuthUser, users: seq<UserRecord>, i: nat)
    requires FindFirst(users, false, a.userId) == Some(i)
    ensures IsAdmin(a, users[i]) ==> CanActivate(Some(a), users) == Ok(())
    ensures !IsAdmin(a, users[i]) ==>
      (CanActivate(Some(a), users) == Ok(()) <==>
        users[i].status == Approved && a.deviceId != "" && users[i].activeDeviceId == Some(a.deviceId))
    ensures !IsAdmin(a, users[i]) && users[i].status != Approved ==>
      CanActivate(Some(a), users) == Err(Forbidden(StatusDenial(users[i].status)))
    ensures !IsAdmin(a, users[i]) && users[i].status == Approved ==>
      CanActivate(Some(a), users).Err? ==> CanActivate(Some(a), users).error.Unauthorized?
  {
  }

  /** Pending, rejected and archived users each get their own message;
      any other stored status gets the generic one. */
  lemma StatusMessagesDistinct(s: Status, t: Status)
    requires s != Approved && t != Approved && !s.OtherStatus? && !t.OtherStatus?
    ensures StatusDenial(s) == StatusDenial(t) <==> s == t
    ensures StatusDenial(OtherStatus("blocked")) == NotApproved
  {
  }

  /** The token a login issues passes the guard as long as the stored
      status is approved; with any other status it is refused although the
      login (which reads the separate `approved` flag) went through. */
  lemma LoginTokenAdmitted(users: seq<UserRecord>, email: string, passwordMatches: string -> bool,
                           deviceId: string)
    requires AuthService.IdsUnique(users) && deviceId != ""
    requires AuthService.LoginStep(users, email, passwordMatches, deviceId).0.Ok?
    ensures var (r, after) := AuthService.LoginStep(users, email, passwordMatches, deviceId);
      var u := r.value.user;
      CanActivate(Some(Validate(r.value.claims)), after) == Ok(())
      <==> u.role == RoleAdmin || u.status == Approved
  {
    var i := FindFirst(users, true, AuthService.EmailKey(email)).value;
    var (r, after) := AuthService.LoginStep(users, email, passwordMatches, deviceId);
    AuthService.LoginOutcomes(users, email, passwordMatches, deviceId, i);
    AuthService.SameKeysSameFind(users, after, i, false, users[i].id);
    AuthService.UniqueIdFound(users, i);
    FoundUserDecision(Validate(r.value.claims), after, i);
  }

  /** After the device logs out, a non-admin's token from that device is
      refused as signed out. */
  lemma LogoutRevokesToken(users: seq<UserRecord>, a: AuthUser)
    requires AuthService.IdsUnique(users) && a.role == RoleUser
    requires AuthService.LogoutStep(users, a.userId, a.deviceId).0.Ok?
    ensures var after := AuthService.LogoutStep(users, a.userId, a.deviceId).1;
      var i := FindFirst(users, false, a.userId).value;
      users[i].role == RoleUser && users[i].status == Approved ==>
        CanActivate(Some(a), after) == Err(Unauthorized(NotSignedIn))
  {
    var i := FindFirst(users, false, a.userId).value;
    var after := AuthService.LogoutStep(users, a.userId, a.deviceId).1;
    AuthService.SameKeysSameFind(users, after, i, false, a.userId);
  }

  /** `AdminGuard.canActivate`: authenticated, and the token's role is
      admin. */
  function AdminGuard(authUser: Option<AuthUser>): (r: Result<(), Denial>)
    ensures r == Ok(()) <==> authUser.Some? && authUser.value.role == RoleAdmin
    ensures authUser.None? ==> r == Err(Unauthorized(NotAuthenticated))
  {
    match authUser
    case None => Err(Unauthorized(NotAuthenticated))
    case Some(a) => if a.role != RoleAdmin then Err(Forbidden(AdminOnly)) else Ok(())
  }

  /** Whoever the admin guard lets through also passes the approval guard,
      provided the account still exists. */
  lemma AdminGuardStricter(authUser: Option<AuthUser>, users: seq<UserRecord>)
    requires AdminGuard(authUser) == Ok(())
    requires FindFirst(users, false, authUser.value.userId).Some?
    ensures CanActivate(authUser, users) == Ok(())
  {
  }
}
