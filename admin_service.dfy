/** The administrator's user management: the filter and paging of the user
    list, the rules of an edit (profile fields, status transitions with
    their timestamps, forced logout and the rejection reason), password
    reset, the approval e-mail, and approving every pending user at once.
    The user store is a sequence of records; regular-expression search,
    bcrypt, the mailer and the store's failures are inputs. */
module AdminService {
  import opened Wrappers
  import opened JsText
  import opened Users
  import UpdateUserDto

  // ---------------------------------------------------------------- list

  /** The `status` query parameter: one status, or `all`. */
  datatype StatusFilter = OnlyStatus(s: Status) | AllStatuses

  /** The query string after validation; absent parameters are `None`. */
  datatype UsersQuery = UsersQuery(status: Option<StatusFilter>, q: Option<string>,
                                   page: Option<int>, limit: Option<int>)

  /** What the query DTO admits: a known status or `all`, page at least 1,
      limit from 1 to 100. */
  predicate QueryValid(query: UsersQuery)
  {
    && (query.status.Some? && query.status.value.OnlyStatus? ==> !query.status.value.s.OtherStatus?)
    && (query.page.Some? ==> query.page.value >= 1)
    && (query.limit.Some? ==> 1 <= query.limit.value <= 100)
  }

  function OrDefault<T>(o: Option<T>, d: T): T
  {
    if o.Some? then o.value else d
  }

  /** A term of the store filter's `$and`: a status equality, or the
      four-field search. */
  datatype Term = StatusIs(s: Status) | SearchTerm(q: string)

  /** The filter document: a top-level `$or` search, a top-level `status`,
      and an `$and` list. */
  datatype Filter = Filter(or: Option<string>, status: Option<Status>, and: seq<Term>)

  /** The search: the pattern matches the e-mail, phone, first or last
      name. `matches(pattern, text)` is the case-insensitive regular
      expression test the store performs. */
  predicate SearchHits(u: UserRecord, q: string, matches: (string, string) -> bool)
  {
    matches(q, u.email) || matches(q, u.phone) || matches(q, u.firstName) || matches(q, u.lastName)
  }

  predicate TermHolds(t: Term, u: UserRecord, matches: (string, string) -> bool)
  {
    match t
    case StatusIs(s) => u.status == s
    case SearchTerm(q) => SearchHits(u, q, matches)
  }

  /** Whether the store returns `u` for filter `f`. */
  predicate Selects(f: Filter, u: UserRecord, matches: (string, string) -> bool)
  {
    && (f.or.Some? ==> SearchHits(u, f.or.value, matches))
    && (f.status.Some? ==> u.status == f.status.value)
    && (forall k | 0 <= k < |f.and| :: TermHolds(f.and[k], u, matches))
  }

  /** `getUsers`' filter: a non-empty search becomes `$or`; a status other
      than `all` becomes `status`, except that with a search both go under
      `$and` and the top-level `$or` is removed. */
  function BuildFilter(status: StatusFilter, q: Option<string>): (f: Filter)
    ensures f.or.Some? ==> f.status.None? && f.and == [] && status.AllStatuses?
    ensures |f.and| > 0 ==> f.or.None? && f.status.None?
  {
    var withSearch := if Truthy(q) then Filter(Some(q.value), None, []) else Filter(None, None, []);
    if status.AllStatuses? then withSearch
    else if withSearch.or.Some? then Filter(None, None, [StatusIs(status.s), SearchTerm(withSearch.or.value)])
    else withSearch.(status := Some(status.s))
  }

  /** The filter selects exactly the users with the requested status (any,
      for `all`) that the search matches (every user, without a search). */
  lemma FilterMeaning(status: StatusFilter, q: Option<string>, u: UserRecord,
                      matches: (string, string) -> bool)
    ensures Selects(BuildFilter(status, q), u, matches) <==>
      && (status.OnlyStatus? ==> u.status == status.s)
      && (Truthy(q) ==> SearchHits(u, q.value, matches))
  {
    var f := BuildFilter(status, q);
    if |f.and| == 2 {
      assert f.and[0] == StatusIs(status.s) && f.and[1] == SearchTerm(q.value);
    }
  }

  /** `Math.ceil(total / limit)` for whole numbers. */
  function CeilDiv(total: nat, limit: int): (n: nat)
    requires limit >= 1
    ensures n * limit >= total
    ensures n > 0 ==> (n - 1) * limit < total
  {
    var n := (total + limit - 1) / limit;
    assert n * limit > total - limit;
    n
  }

  /** The paging of a list request: the defaults (pending users, page 1,
      20 per page) fill in absent parameters; `skip` is the number of
      matching users before the page, `totalPages` the number of pages. */
  datatype Paging = Paging(filter: Filter, skip: int, limit: int, totalPages: nat)

  function GetUsersPaging(query: UsersQuery, total: nat): (p: Paging)
    requires QueryValid(query)
    ensures p.skip >= 0 && 1 <= p.limit <= 100
    ensures p.totalPages * p.limit >= total && (p.totalPages == 0 <==> total == 0)
  {
    var status := OrDefault(query.status, OnlyStatus(Pending));
    var page := OrDefault(query.page, 1);
    var limit := OrDefault(query.limit, 20);
    var skip := (page - 1) * limit;
    Paging(BuildFilter(status, query.q), skip, limit, CeilDiv(total, limit))
  }

  /** With no parameters the pending users are listed, 20 from the start. */
  lemma DefaultQuery(total: nat)
    ensures var p := GetUsersPaging(UsersQuery(None, None, None, None), total);
      p.filter == Filter(None, Some(Pending), []) && p.skip == 0 && p.limit == 20
  {
  }

  /** The last page is non-empty and the one after it is empty: every
      matching user is on exactly one of pages 1 to `totalPages`. */
  lemma LastPageHoldsTheTail(query: UsersQuery, total: nat)
    requires QueryValid(query) && total > 0
    ensures var p := GetUsersPaging(query, total);
      (p.totalPages - 1) * p.limit < total <= p.totalPages * p.limit
    ensures var p := GetUsersPaging(query, total);
      p.skip == (OrDefault(query.page, 1) - 1) * p.limit
  {
  }

  // ---------------------------------------------------------------- edit

  /** The edit request after validation: each field may be absent. */
  datatype UpdateDto = UpdateDto(
    firstName: Option<string>, lastName: Option<string>, phone: Option<string>,
    apartmentNumber: Option<int>, floor: Option<int>,
    status: Option<Status>, rejectionReason: UpdateUserDto.NullableString)

  /** One field of the update document: left alone, or set. */
  datatype Patch<T> = Keep | Set(value: T)

  function Patched<T>(p: Patch<T>, current: T): T
  {
    if p.Set? then p.value else current
  }

  function PatchOf<T>(o: Option<T>): (p: Patch<T>)
    ensures p.Set? <==> o.Some?
    ensures p.Set? ==> p.value == o.value
  {
    if o.Some? then Set(o.value) else Keep
  }

  /** The update document `updateUser` builds. */
  datatype UpdateData = UpdateData(
    firstName: Patch<string>, lastName: Patch<string>, phone: Patch<string>,
    apartmentNumber: Patch<int>, floor: Patch<int>, status: Patch<Status>,
    approvedAt: Patch<Option<int>>, rejectedAt: Patch<Option<int>>,
    activeDeviceId: Patch<Option<string>>, rejectionReason: Patch<Option<string>>)

  /** The stored record after the update document is applied. */
  function Apply(u: UserRecord, d: UpdateData): UserRecord
  {
    u.(firstName := Patched(d.firstName, u.firstName),
       lastName := Patched(d.lastName, u.lastName),
       phone := Patched(d.phone, u.phone),
       apartmentNumber := Patched(d.apartmentNumber, u.apartmentNumber),
       floor := Patched(d.floor, u.floor),
       status := Patched(d.status, u.status),
       approvedAt := Patched(d.approvedAt, u.approvedAt),
       rejectedAt := Patched(d.rejectedAt, u.rejectedAt),
       activeDeviceId := Patched(d.activeDeviceId, u.activeDeviceId),
       rejectionReason := Patched(d.rejectionReason, u.rejectionReason))
  }

  datatype BadRequestReason = ReasonRequired | PasswordMismatch | NotApproved

  datatype AdminError = NotFound | BadRequest(why: BadRequestReason) | EmailFailed

  /** The statuses that sign the user out. */
  predicate ForcesLogout(s: Status)
  {
    s == Rejected || s == Archived || s == Pending
  }

  /** The reason the edit stores under status rejected must have text. */
  predicate RejectionWithoutReason(existing: UserRecord, dto: UpdateDto)
  {
    if dto.status.Some? then dto.status.value == Rejected && !UpdateUserDto.HasText(dto.rejectionReason)
    else !dto.rejectionReason.Undefined? && existing.status == Rejected
         && !UpdateUserDto.HasText(dto.rejectionReason)
  }

  /** The update document of an edit, built as `updateUser` builds it:
      the profile fields that were sent; the new status with its
      timestamps; a cleared active device for a status that signs out; and
      the rejection reason, which is kept only under status rejected and
      must then have text. */
  function BuildUpdateData(existing: UserRecord, dto: UpdateDto, now: int): (r: Result<UpdateData, AdminError>)
    ensures r.Err? <==> RejectionWithoutReason(existing, dto)
    ensures r.Err? ==> r.error == BadRequest(ReasonRequired)
    ensures r.Ok? ==> && r.value.firstName == PatchOf(dto.firstName) && r.value.lastName == PatchOf(dto.lastName)
                      && r.value.phone == PatchOf(dto.phone)
                      && r.value.apartmentNumber == PatchOf(dto.apartmentNumber)
                      && r.value.floor == PatchOf(dto.floor)
                      && r.value.status == PatchOf(dto.status)
  {
    var d0 := UpdateData(PatchOf(dto.firstName), PatchOf(dto.lastName), PatchOf(dto.phone),
                         PatchOf(dto.apartmentNumber), PatchOf(dto.floor),
                         Keep, Keep, Keep, Keep, Keep);
    var reason := dto.rejectionReason;
    if dto.status.Some? then
      var s := dto.status.value;
      var d1 := d0.(status := Set(s));
      var d2 :=
        if s == Approved && existing.status != Approved then d1.(approvedAt := Set(Some(now)), rejectedAt := Set(None))
        else if s == Rejected && existing.status != Rejected then d1.(rejectedAt := Set(Some(now)), approvedAt := Set(None))
        else d1;
      var d3 := if ForcesLogout(s) then d2.(activeDeviceId := Set(None)) else d2;
      if s == Rejected then
        if !UpdateUserDto.HasText(reason) then Err(BadRequest(ReasonRequired))
        else Ok(d3.(rejectionReason := Set(Some(reason.s))))
      else Ok(d3.(rejectionReason := Set(None)))
    else if !reason.Undefined? then
      if existing.status == Rejected then
        if !UpdateUserDto.HasText(reason) then Err(BadRequest(ReasonRequired))
        else Ok(d0.(rejectionReason := Set(Some(reason.s))))
      else Ok(d0.(rejectionReason := Set(None)))
    else Ok(d0)
  }

  /** Rejected users carry a reason with text, and only they carry one. */
  predicate ReasonConsistent(u: UserRecord)
  {
    u.status == Rejected <==> u.rejectionReason.Some? && Trim(u.rejectionReason.value) != []
  }

  /** An approved user has an approval time and no rejection time, and a
      rejected one the other way round. */
  predicate TimestampsConsistent(u: UserRecord)
  {
    && (u.status == Approved ==> u.approvedAt.Some? && u.rejectedAt.None?)
    && (u.status == Rejected ==> u.rejectedAt.Some? && u.approvedAt.None?)
  }

  /** A user whose status signs out has no active device. */
  predicate SessionConsistent(u: UserRecord)
  {
    ForcesLogout(u.status) ==> u.activeDeviceId.None?
  }

  predicate Consistent(u: UserRecord)
  {
    ReasonConsistent(u) && TimestampsConsistent(u) && SessionConsistent(u)
  }

  /** An edit that goes through keeps a consistent record consistent. */
  lemma EditPreservesConsistency(u: UserRecord, dto: UpdateDto, now: int)
    requires Consistent(u)
    requires BuildUpdateData(u, dto, now).Ok?
    ensures Consistent(Apply(u, BuildUpdateData(u, dto, now).value))
  {
    EditKeepsReason(u, dto, now);
    EditKeepsTimestamps(u, dto, now);
    EditKeepsSession(u, dto, now);
  }

  lemma EditKeepsReason(u: UserRecord, dto: UpdateDto, now: int)
    requires ReasonConsistent(u)
    requires BuildUpdateData(u, dto, now).Ok?
    ensures ReasonConsistent(Apply(u, BuildUpdateData(u, dto, now).value))
  {
  }

  lemma EditKeepsTimestamps(u: UserRecord, dto: UpdateDto, now: int)
    requires TimestampsConsistent(u)
    requires BuildUpdateData(u, dto, now).Ok?
    ensures TimestampsConsistent(Apply(u, BuildUpdateData(u, dto, now).value))
  {
  }

  lemma EditKeepsSession(u: UserRecord, dto: UpdateDto, now: int)
    requires SessionConsistent(u)
    requires BuildUpdateData(u, dto, now).Ok?
    ensures SessionConsistent(Apply(u, BuildUpdateData(u, dto, now).value))
  {
  }

  /** The status transition rules: entering approved stamps the approval
      and clears the rejection time, entering rejected the reverse,
      setting the status a record already has leaves both times alone, and
      rejected, archived or pending sign the user out. Fields the request
      does not mention keep their values. */
  lemma EditStatusRules(u: UserRecord, dto: UpdateDto, now: int)
    requires BuildUpdateData(u, dto, now).Ok?
    ensures var v := Apply(u, BuildUpdateData(u, dto, now).value);
      && (dto.status == Some(Approved) && u.status != Approved ==>
            v.approvedAt == Some(now) && v.rejectedAt == None)
      && (dto.status == Some(Rejected) && u.status != Rejected ==>
            v.rejectedAt == Some(now) && v.approvedAt == None)
      && (dto.status == Some(u.status) || dto.status.None? ==>
            v.approvedAt == u.approvedAt && v.rejectedAt == u.rejectedAt)
      && (dto.status.Some? && ForcesLogout(dto.status.value) ==> v.activeDeviceId.None?)
      && (dto.status.None? || !ForcesLogout(dto.status.value) ==> v.activeDeviceId == u.activeDeviceId)
      && (dto.firstName.None? ==> v.firstName == u.firstName)
      && (dto.phone.None? ==> v.phone == u.phone)
      && v.id == u.id && v.email == u.email && v.passwordHash == u.passwordHash && v.role == u.role
      && v.approved == u.approved && v.approvalEmailSentAt == u.approvalEmailSentAt
  {
  }

  /** The rejection reason: stored as sent under status rejected, cleared
      under any other status sent, and for a request without a status kept
      only when the stored status is rejected. */
  lemma EditReasonRules(u: UserRecord, dto: UpdateDto, now: int)
    requires BuildUpdateData(u, dto, now).Ok?
    ensures var v := Apply(u, BuildUpdateData(u, dto, now).value);
      && (dto.status == Some(Rejected) ==> v.rejectionReason == Some(dto.rejectionReason.s))
      && (dto.status.Some? && dto.status.value != Rejected ==> v.rejectionReason == None)
      && (dto.status.None? && dto.rejectionReason.Str? && u.status == Rejected ==>
            v.rejectionReason == Some(dto.rejectionReason.s))
      && (dto.status.None? && !dto.rejectionReason.Undefined? && u.status != Rejected ==>
            v.rejectionReason == None)
      && (dto.status.None? && dto.rejectionReason.Undefined? ==> v.rejectionReason == u.rejectionReason)
  {
  }

  /** The result of an edit that went through: the stored record, and
      whether the approval e-mail was attempted. */
  datatype Edited = Edited(user: UserRecord, emailAttempted: bool)

  /** `updateUser` against the store: a missing user is not found; a
      status that signs out clears the session first, so it stays cleared
      even when the request is then refused for a missing reason; the
      update is applied; and on a first approval with no e-mail on record
      the approval e-mail is attempted, `emailOk` telling whether sending
      it and stamping its time succeeded. */
  function UpdateStep(users: seq<UserRecord>, userId: string, dto: UpdateDto, now: int, emailOk: bool)
    : (r: (Result<Edited, AdminError>, seq<UserRecord>))
    ensures |r.1| == |users|
    ensures r.0.Err? && r.0.error == NotFound ==> r.1 == users
  {
    match FindFirst(users, false, userId)
    case None => (Err(NotFound), users)
    case Some(i) =>
      var existing := users[i];
      var cleared :=
        if dto.status.Some? && ForcesLogout(dto.status.value) then users[i := existing.(activeDeviceId := None)]
        else users;
      match BuildUpdateData(existing, dto, now)
      case Err(e) => (Err(e), cleared)
      case Ok(d) =>
        var v := Apply(cleared[i], d);
        var attempt := dto.status == Some(Approved) && existing.status != Approved && v.approvalEmailSentAt.None?;
        var w := if attempt && emailOk then v.(approvalEmailSentAt := Some(now)) else v;
        (Ok(Edited(w, attempt)), cleared[i := w])
  }

  /** Only the edited record changes, and a rejection refused for a
      missing reason still signs the user out. */
  lemma UpdateTouchesOneRecord(users: seq<UserRecord>, userId: string, dto: UpdateDto, now: int,
                               emailOk: bool, i: nat)
    requires FindFirst(users, false, userId) == Some(i)
    ensures var (r, after) := UpdateStep(users, userId, dto, now, emailOk);
      && (forall j | 0 <= j < |users| && j != i :: after[j] == users[j])
      && (r.Ok? ==> after[i] == r.value.user)
      && (r.Err? && r.error == BadRequest(ReasonRequired) && dto.status == Some(Rejected) ==>
            after[i] == users[i].(activeDeviceId := None))
  {
  }

  /** The approval e-mail goes out at most once: it is attempted only on a
      transition into approved for a record with no e-mail time, and a
      successful attempt records that time. */
  lemma ApprovalEmailOnce(users: seq<UserRecord>, userId: string, dto: UpdateDto, now: int,
                          emailOk: bool, i: nat)
    requires FindFirst(users, false, userId) == Some(i)
    ensures var (r, after) := UpdateStep(users, userId, dto, now, emailOk);
      r.Ok? ==>
        && (r.value.emailAttempted <==>
              dto.status == Some(Approved) && users[i].status != Approved
              && users[i].approvalEmailSentAt.None?)
        && (r.value.emailAttempted && emailOk ==> after[i].approvalEmailSentAt == Some(now))
        && (!r.value.emailAttempted ==> after[i].approvalEmailSentAt == users[i].approvalEmailSentAt)
  {
  }

  /** Approving, rejecting and approving again sends the e-mail once. */
  lemma ReapprovalSendsNoSecondEmail(users: seq<UserRecord>, userId: string, reason: string,
                                     t1: int, t2: int, t3: int, ok2: bool, ok3: bool)
    requires IdsUnique(users)
    requires FindFirst(users, false, userId).Some?
    requires Trim(reason) != []
    ensures var approve := UpdateDto(None, None, None, None, None, Some(Approved), UpdateUserDto.Undefined);
      var reject := UpdateDto(None, None, None, None, None, Some(Rejected), UpdateUserDto.Str(reason));
      var s1 := UpdateStep(users, userId, approve, t1, true).1;
      var s2 := UpdateStep(s1, userId, reject, t2, ok2).1;
      var r3 := UpdateStep(s2, userId, approve, t3, ok3).0;
      UpdateStep(users, userId, approve, t1, true).0.Ok? && r3.Ok?
      && (users[FindFirst(users, false, userId).value].status != Approved ==> !r3.value.emailAttempted)
  {
    var i := FindFirst(users, false, userId).value;
    var approve := UpdateDto(None, None, None, None, None, Some(Approved), UpdateUserDto.Undefined);
    var reject := UpdateDto(None, None, None, None, None, Some(Rejected), UpdateUserDto.Str(reason));
    var s1 := UpdateStep(users, userId, approve, t1, true).1;
    UpdateTouchesOneRecord(users, userId, approve, t1, true, i);
    SameIdsSameFind(users, s1, i, userId);
    var s2 := UpdateStep(s1, userId, reject, t2, ok2).1;
    UpdateTouchesOneRecord(s1, userId, reject, t2, ok2, i);
    SameIdsSameFind(s1, s2, i, userId);
    ApprovalEmailOnce(s2, userId, approve, t3, ok3, i);
  }

  /** No two stored users share an id. */
  ghost predicate IdsUnique(users: seq<UserRecord>)
  {
    forall i, j | 0 <= i < j < |users| :: users[i].id != users[j].id
  }

  /** Rewriting one record without touching its id leaves lookups by id
      where they were. */
  lemma SameIdsSameFind(a: seq<UserRecord>, b: seq<UserRecord>, i: nat, userId: string)
    requires |a| == |b| && i < |a|
    requires forall j | 0 <= j < |a| && j != i :: b[j] == a[j]
    requires b[i].id == a[i].id
    ensures FindFirst(b, false, userId) == FindFirst(a, false, userId)
  {
    forall j | 0 <= j < |a| ensures KeyOf(b[j], false) == KeyOf(a[j], false) {
      if j != i { assert b[j] == a[j]; }
    }
    FindFirstByKeys(a, b, false, userId);
  }

  // ----------------------------------------------------- password, e-mail

  /** `resetPassword`: the confirmation must match, before the store is
      consulted; then the user must exist; the new hash (`newHash`, the
      bcrypt hash of the new password) is stored and the session cleared. */
  function ResetPasswordStep(users: seq<UserRecord>, userId: string, newPassword: string,
                             confirmPassword: string, newHash: string)
    : (r: (Result<UserRecord, AdminError>, seq<UserRecord>))
    ensures r.0.Err? ==> r.1 == users
    ensures newPassword != confirmPassword ==> r.0 == Err(BadRequest(PasswordMismatch))
    ensures newPassword == confirmPassword ==>
      (r.0.Ok? <==> FindFirst(users, false, userId).Some?)
    ensures r.0.Ok? ==> r.0.value.passwordHash == newHash && r.0.value.activeDeviceId.None?
                        && r.1 == users[FindFirst(users, false, userId).value := r.0.value]
  {
    if newPassword != confirmPassword then (Err(BadRequest(PasswordMismatch)), users)
    else match FindFirst(users, false, userId)
      case None => (Err(NotFound), users)
      case Some(i) =>
        var v := users[i].(passwordHash := newHash, activeDeviceId := None);
        (Ok(v), users[i := v])
  }

  /** `sendApprovalEmail`: only for an existing, approved user; a failure
      of the mailer is passed on, and a sent e-mail is time-stamped. */
  function SendApprovalEmailStep(users: seq<UserRecord>, userId: string, now: int, emailOk: bool)
    : (r: (Result<(), AdminError>, seq<UserRecord>))
    ensures r.0.Err? ==> r.1 == users
    ensures r.0.Ok? <==> (FindFirst(users, false, userId).Some?
                          && users[FindFirst(users, false, userId).value].status == Approved && emailOk)
    ensures FindFirst(users, false, userId).Some?
            && users[FindFirst(users, false, userId).value].status != Approved ==>
              r.0 == Err(BadRequest(NotApproved))
    ensures r.0.Ok? ==> var i := FindFirst(users, false, userId).value;
                        r.1 == users[i := users[i].(approvalEmailSentAt := Some(now))]
  {
    match FindFirst(users, false, userId)
    case None => (Err(NotFound), users)
    case Some(i) =>
      if users[i].status != Approved then (Err(BadRequest(NotApproved)), users)
      else if !emailOk then (Err(EmailFailed), users)
      else (Ok(()), users[i := users[i].(approvalEmailSentAt := Some(now))])
  }

  // -------------------------------------------------------- approve all

  /** At most this many pending users are fetched in one go. */
  const ApproveBatchLimit: nat := 10000

  /** How the store calls of one user's approval went: the status update,
      the e-mail with its time stamp, clearing the session and clearing
      the active device. */
  datatype Attempt = Attempt(updateOk: bool, emailOk: bool, sessionClearOk: bool, deviceClearOk: bool)

  /** The positions, from `from` on, of the first `limit` pending users,
      in store order. */
  function PendingFrom(users: seq<UserRecord>, from: nat, limit: nat): (ps: seq<nat>)
    requires from <= |users|
    ensures |ps| <= limit
    ensures forall k | 0 <= k < |ps| :: from <= ps[k] < |users| && users[ps[k]].status == Pending
    ensures forall k, l | 0 <= k < l < |ps| :: ps[k] < ps[l]
    decreases |users| - from
  {
    if from == |users| || limit == 0 then []
    else if users[from].status == Pending then [from] + PendingFrom(users, from + 1, limit - 1)
    else PendingFrom(users, from + 1, limit)
  }

  /** The pending users `approveAllPendingUsers` fetches. */
  function PendingPositions(users: seq<UserRecord>): seq<nat>
  {
    PendingFrom(users, 0, ApproveBatchLimit)
  }

  /** When fewer than `limit` positions come back, every pending user is
      among them. */
  lemma {:induction false} PendingComplete(users: seq<UserRecord>, from: nat, limit: nat)
    requires from <= |users|
    ensures |PendingFrom(users, from, limit)| < limit ==>
      forall j | from <= j < |users| && users[j].status == Pending :: j in PendingFrom(users, from, limit)
    decreases |users| - from
  {
    if from < |users| && limit > 0 {
      if users[from].status == Pending {
        PendingComplete(users, from + 1, limit - 1);
      } else {
        PendingComplete(users, from + 1, limit);
      }
    }
  }

  /** One pending user's approval: a failed status update changes nothing;
      otherwise the user is approved now, the e-mail time is stamped if the
      e-mail went out, and the active device is gone once the session is
      cleared. */
  function ApproveOne(u: UserRecord, a: Attempt, now: int): (v: UserRecord)
    ensures !a.updateOk ==> v == u
    ensures a.updateOk ==> v.status == Approved && v.approvedAt == Some(now) && v.rejectedAt == None
    ensures v.id == u.id && v.email == u.email && v.rejectionReason == u.rejectionReason
  {
    if !a.updateOk then u
    else
      var v := u.(status := Approved, approvedAt := Some(now), rejectedAt := None);
      var w := if a.emailOk then v.(approvalEmailSentAt := Some(now)) else v;
      if a.sessionClearOk then w.(activeDeviceId := None) else w
  }

  /** Whether the user is counted: every call outside the e-mail's own
      error handling went through. */
  predicate Counted(a: Attempt)
  {
    a.updateOk && a.sessionClearOk && a.deviceClearOk
  }

  /** The store after the users at positions `done` have been processed,
      the attempt for position `j` being `attempts[j]`. */
  function ApprovedAt(users: seq<UserRecord>, attempts: seq<Attempt>, now: int, done: seq<nat>)
    : (r: seq<UserRecord>)
    requires |attempts| == |users|
    ensures |r| == |users|
  {
    seq(|users|, j requires 0 <= j < |users| => if j in done then ApproveOne(users[j], attempts[j], now) else users[j])
  }

  /** How many of the positions `done` are counted. */
  function CountCounted(attempts: seq<Attempt>, done: seq<nat>): (n: nat)
    requires forall k | 0 <= k < |done| :: done[k] < |attempts|
    ensures n <= |done|
  {
    if done == [] then 0
    else CountCounted(attempts, done[..|done| - 1]) + (if Counted(attempts[done[|done| - 1]]) then 1 else 0)
  }

  /** The count reports exactly the processed users whose calls all went
      through: all of them when nothing fails, none when every status
      update fails. */
  lemma {:induction false} CountBounds(attempts: seq<Attempt>, done: seq<nat>)
    requires forall k | 0 <= k < |done| :: done[k] < |attempts|
    ensures (forall k | 0 <= k < |done| :: Counted(attempts[done[k]])) ==> CountCounted(attempts, done) == |done|
    ensures (forall k | 0 <= k < |done| :: !attempts[done[k]].updateOk) ==> CountCounted(attempts, done) == 0
  {
    if done != [] {
      CountBounds(attempts, done[..|done| - 1]);
    }
  }

  /** With at most 10000 pending users and no failure, none is left
      pending, and the approved users are signed out. */
  lemma ApproveAllLeavesNonePending(users: seq<UserRecord>, attempts: seq<Attempt>, now: int)
    requires |attempts| == |users|
    requires forall j | 0 <= j < |users| :: attempts[j].updateOk && attempts[j].sessionClearOk
    requires |PendingPositions(users)| < ApproveBatchLimit
    ensures var after := ApprovedAt(users, attempts, now, PendingPositions(users));
      forall j | 0 <= j < |users| :: after[j].status != Pending
        && (users[j].status == Pending ==> after[j].activeDeviceId.None? && after[j].status == Approved)
  {
    PendingComplete(users, 0, ApproveBatchLimit);
  }

  /** Processing one more, not yet processed, position updates that one
      record. */
  lemma ApprovedAtStep(users: seq<UserRecord>, attempts: seq<Attempt>, now: int, done: seq<nat>, j: nat)
    requires |attempts| == |users| && j < |users| && j !in done
    ensures ApprovedAt(users, attempts, now, done + [j])
            == ApprovedAt(users, attempts, now, done)[j := ApproveOne(users[j], attempts[j], now)]
  {
    var a := ApprovedAt(users, attempts, now, done + [j]);
    var b := ApprovedAt(users, attempts, now, done)[j := ApproveOne(users[j], attempts[j], now)];
    forall m | 0 <= m < |users|
      ensures a[m] == b[m]
    {
      assert m in done + [j] <==> m in done || m == j;
    }
  }

  /** The user store the admin endpoints read and write. */
  class AdminService {
    var users: seq<UserRecord>

    constructor (users: seq<UserRecord>)
      ensures this.users == users
    {
      this.users := users;
    }

    method UpdateUser(userId: string, dto: UpdateDto, now: int, emailOk: bool)
      returns (r: Result<Edited, AdminError>)
      modifies this
      ensures (r, users) == UpdateStep(old(users), userId, dto, now, emailOk)
    {
      var found := FindFirst(users, false, userId);
      if found.None? {
        return Err(NotFound);
      }
      var i := found.value;
      var existing := users[i];
      if dto.status.Some? && ForcesLogout(dto.status.value) {
        // clearSession runs before the rejection reason is checked
        users := users[i := users[i].(activeDeviceId := None)];
      }
      var data := BuildUpdateData(existing, dto, now);
      if data.Err? {
        return Err(data.error);
      }
      var v := Apply(users[i], data.value);
      var attempt := dto.status == Some(Approved) && existing.status != Approved && v.approvalEmailSentAt.None?;
      if attempt && emailOk {
        v := v.(approvalEmailSentAt := Some(now));
      }
      users := users[i := v];
      return Ok(Edited(v, attempt));
    }

    method ResetPassword(userId: string, newPassword: string, confirmPassword: string, newHash: string)
      returns (r: Result<UserRecord, AdminError>)
      modifies this
      ensures (r, users) == ResetPasswordStep(old(users), userId, newPassword, confirmPassword, newHash)
    {
      if newPassword != confirmPassword {
        return Err(BadRequest(PasswordMismatch));
      }
      var found := FindFirst(users, false, userId);
      if found.None? {
        return Err(NotFound);
      }
      var i := found.value;
      var v := users[i].(passwordHash := newHash);
      // clearSession
      v := v.(activeDeviceId := None);
      users := users[i := v];
      return Ok(v);
    }

    method SendApprovalEmail(userId: string, now: int, emailOk: bool) returns (r: Result<(), AdminError>)
      modifies this
      ensures (r, users) == SendApprovalEmailStep(old(users), userId, now, emailOk)
    {
      var found := FindFirst(users, false, userId);
      if found.None? {
        return Err(NotFound);
      }
      var i := found.value;
      if users[i].status != Approved {
        return Err(BadRequest(NotApproved));
      }
      if !emailOk {
        return Err(EmailFailed);
      }
      users := users[i := users[i].(approvalEmailSentAt := Some(now))];
      return Ok(());
    }

    /** `approveAllPendingUsers`: fetches the pending users and approves
        them one by one, counting those whose calls all went through. */
    method ApproveAllPendingUsers(attempts: seq<Attempt>, now: int) returns (count: nat)
      requires |attempts| == |users|
      modifies this
      ensures var pending := PendingPositions(old(users));
        users == ApprovedAt(old(users), attempts, now, pending) && count == CountCounted(attempts, pending)
    {
      var pending := PendingPositions(users);
      ghost var start := users;
      count := 0;
      for k := 0 to |pending|
        invariant |users| == |start|
        invariant users == ApprovedAt(start, attempts, now, pending[..k])
        invariant count == CountCounted(attempts, pending[..k])
      {
        var j := pending[k];
        var a := attempts[j];
        assert pending[..k + 1] == pending[..k] + [j];
        assert j !in pending[..k];
        assert CountCounted(attempts, pending[..k + 1])
               == CountCounted(attempts, pending[..k]) + (if Counted(a) then 1 else 0);
        var u := users[j];
        if a.updateOk {
          u := u.(status := Approved, approvedAt := Some(now), rejectedAt := None);
          if a.emailOk {
            u := u.(approvalEmailSentAt := Some(now));
          }
          if a.sessionClearOk {
            u := u.(activeDeviceId := None);
            if a.deviceClearOk {
              count := count + 1;
            }
          }
        }
        ApprovedAtStep(start, attempts, now, pending[..k], j);
        users := users[j := u];
      }
      assert pending[..|pending|] == pending;
    }
  }
}
