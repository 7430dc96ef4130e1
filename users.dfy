/** The stored user record that the backend rules read and write. Only the
    fields those rules touch are kept; timestamps are milliseconds since the
    epoch. */
module Users {
  import opened Wrappers

  datatype Role = RoleUser | RoleAdmin

  /** The statuses the admin endpoints assign. A stored document may carry
      any other value (the schema file lists a legacy `blocked`), so the
      rest are kept by name. */
  datatype Status = Pending | Approved | Rejected | Archived | OtherStatus(name: string)

  datatype UserRecord = UserRecord(
    id: string,
    email: string,
    passwordHash: string,
    firstName: string,
    lastName: string,
    phone: string,
    apartmentNumber: int,
    floor: int,
    role: Role,
    status: Status,
    // the separate `approved` flag the login path reads
    approved: bool,
    rejectionReason: Option<string>,
    activeDeviceId: Option<string>,
    approvedAt: Option<int>,
    rejectedAt: Option<int>,
    approvalEmailSentAt: Option<int>)

  /** JavaScript truthiness of an optional string: present and non-empty. */
  predicate Truthy(o: Option<string>)
  {
    o.Some? && o.value != ""
  }

  /** The field a `findOne` query matches on: the e-mail or the id. */
  function KeyOf(u: UserRecord, byEmail: bool): string
  {
    if byEmail then u.email else u.id
  }

  /** The first stored user whose e-mail (or id) equals `value`, as a
      `findOne` query returns it. */
  function FindFirst(users: seq<UserRecord>, byEmail: bool, value: string): (r: Option<nat>)
    ensures r.Some? ==> r.value < |users| && KeyOf(users[r.value], byEmail) == value
    ensures r.Some? ==> forall j | 0 <= j < r.value :: KeyOf(users[j], byEmail) != value
    ensures r.None? ==> forall j | 0 <= j < |users| :: KeyOf(users[j], byEmail) != value
  {
    if users == [] then None
    else if KeyOf(users[0], byEmail) == value then Some(0)
    else match FindFirst(users[1..], byEmail, value)
      case None => None
      case Some(i) => Some(i + 1)
  }
  /** Two stores whose records carry the same keys, position by position,
      answer every lookup alike. */
  lemma FindFirstByKeys(a: seq<UserRecord>, b: seq<UserRecord>, byEmail: bool, value: string)
    requires |a| == |b|
    requires forall j | 0 <= j < |a| :: KeyOf(b[j], byEmail) == KeyOf(a[j], byEmail)
    ensures FindFirst(b, byEmail, value) == FindFirst(a, byEmail, value)
  {
    var ra := FindFirst(a, byEmail, value);
    var rb := FindFirst(b, byEmail, value);
    if ra.Some? {
      assert KeyOf(b[ra.value], byEmail) == value;
    }
    if rb.Some? {
      assert KeyOf(a[rb.value], byEmail) == KeyOf(b[rb.value], byEmail);
    }
  }
}
