/** Validation rules of the administrator's user-update request: the
    rejection-reason rules tied to the status, the phone pattern and the
    set of statuses an update may assign. The `rejectionReason` field
    carries `@IsOptional` and two `@ValidateIf` guards; class-validator
    runs a field's validators only when every such condition holds, and
    the two guards exclude each other, so the reason validators never run
    on a request (`ReasonValidatorsNeverRun`). */
module UpdateUserDto {
  import opened Wrappers
  import opened JsText
  import opened Users

  /** A JSON field that may be left out, sent as null, or sent as a string. */
  datatype NullableString = Undefined | Null | Str(s: string)

  /** Sent and not blank after trimming. */
  predicate HasText(r: NullableString)
  {
    r.Str? && Trim(r.s) != []
  }

  /** `status === 'rejected'`. */
  predicate IsRejected(status: Option<Status>)
  {
    status == Some(Rejected)
  }

  /** `status && status !== 'rejected'`: a status is given (any non-empty
      value) and it is not `rejected`. */
  predicate IsOtherStatus(status: Option<Status>)
  {
    status.Some? && status.value != OtherStatus("") && status.value != Rejected
  }

  /** `RejectionReasonValidator.validate`: with status `rejected` the
      reason must be a string with text; with any other status it passes. */
  function ReasonRequired(status: Option<Status>, reason: NullableString): (ok: bool)
    ensures IsRejected(status) ==> (ok <==> HasText(reason))
    ensures !IsRejected(status) ==> ok
  {
    if IsRejected(status) then reason.Str? && Trim(reason.s) != [] else true
  }

  /** `RejectionReasonNullValidator.validate`: with another status set the
      reason must be absent, null or blank; without one it passes. */
  function ReasonMustBeEmpty(status: Option<Status>, reason: NullableString): (ok: bool)
    ensures IsOtherStatus(status) ==> (ok <==> !HasText(reason))
    ensures !IsOtherStatus(status) ==> ok
  {
    if IsOtherStatus(status) then reason.Undefined? || reason.Null? || Trim(reason.s) == [] else true
  }

  /** The two validators never both fail, and the two `ValidateIf`
      conditions guarding them are never both true. */
  lemma AtMostOneReasonValidatorFails(status: Option<Status>, reason: NullableString)
    ensures ReasonRequired(status, reason) || ReasonMustBeEmpty(status, reason)
    ensures !(IsRejected(status) && IsOtherStatus(status))
    ensures status.None? ==> ReasonRequired(status, reason) && ReasonMustBeEmpty(status, reason)
  {
  }

  /** The conditions class-validator ANDs before running any validator of
      `rejectionReason`: `@IsOptional` (the value is neither null nor
      undefined) and both `@ValidateIf` guards. */
  predicate ReasonValidatorsRun(status: Option<Status>, reason: NullableString)
  {
    !reason.Undefined? && !reason.Null? && IsRejected(status) && IsOtherStatus(status)
  }

  /** Whether the `rejectionReason` field passes its decorators: it does
      when the conditions skip them, and otherwise it must be a string
      accepted by both custom validators. */
  function ReasonFieldValid(status: Option<Status>, reason: NullableString): (ok: bool)
    ensures !ReasonValidatorsRun(status, reason) ==> ok
    ensures ReasonValidatorsRun(status, reason) ==>
      (ok <==> reason.Str? && ReasonRequired(status, reason) && ReasonMustBeEmpty(status, reason))
  {
    !ReasonValidatorsRun(status, reason)
      || (reason.Str? && ReasonRequired(status, reason) && ReasonMustBeEmpty(status, reason))
  }

  /** As declared, the guards can never all hold: every request passes the
      field's validation, including a rejection with a blank or missing
      reason that `ReasonRequired` alone would refuse and another status
      with a reason that `ReasonMustBeEmpty` alone would refuse. */
  lemma ReasonValidatorsNeverRun(status: Option<Status>, reason: NullableString)
    ensures !ReasonValidatorsRun(status, reason)
    ensures ReasonFieldValid(status, reason)
    ensures IsRejected(status) && !HasText(reason) ==> !ReasonRequired(status, reason)
    ensures IsOtherStatus(status) && HasText(reason) ==> !ReasonMustBeEmpty(status, reason)
  {
    AtMostOneReasonValidatorFails(status, reason);
  }

  predicate IsDigit(c: char)
  {
    '0' <= c <= '9'
  }

  predicate AllDigits(s: string)
  {
    forall k | 0 <= k < |s| :: IsDigit(s[k])
  }

  /** The phone pattern `^0(2|3|4|5[0-9]|8|9)[0-9]{7}$`. */
  predicate MatchesPhonePattern(s: string)
  {
    && |s| >= 2 && s[0] == '0'
    && (|| (s[1] in "23489" && |s| == 9 && AllDigits(s[2..]))
        || (s[1] == '5' && |s| == 10 && AllDigits(s[2..])))
  }

  /** An accepted phone is ten digits starting `05` (a mobile number, any
      third digit) or nine digits starting `0` and a landline area digit. */
  lemma PhonePatternShapes(s: string)
    ensures MatchesPhonePattern(s) ==> AllDigits(s) && (|s| == 9 || |s| == 10)
    ensures MatchesPhonePattern(s) && |s| == 10 ==> s[..2] == "05"
    ensures MatchesPhonePattern(s) && |s| == 9 ==> s[1] in "23489"
    ensures |s| == 10 && s[..2] == "05" && AllDigits(s) ==> MatchesPhonePattern(s)
  {
    if MatchesPhonePattern(s) {
      assert forall k | 2 <= k < |s| :: s[k] == s[2..][k - 2];
    }
    if |s| == 10 && s[..2] == "05" && AllDigits(s) {
      assert s[0] == s[..2][0] && s[1] == s[..2][1];
    }
  }

  /** The strings an update may give as `status`. */
  function StatusName(s: Status): string
  {
    match s
    case Pending => "pending"
    case Approved => "approved"
    case Rejected => "rejected"
    case Archived => "archived"
    case OtherStatus(n) => n
  }

  /** The `@IsEnum` check: exactly the four statuses are accepted. */
  function ParseStatus(text: string): (r: Option<Status>)
    ensures r.Some? ==> StatusName(r.value) == text && !r.value.OtherStatus?
    ensures r.None? ==> text !in {"pending", "approved", "rejected", "archived"}
  {
    if text == "pending" then Some(Pending)
    else if text == "approved" then Some(Approved)
    else if text == "rejected" then Some(Rejected)
    else if text == "archived" then Some(Archived)
    else None
  }

  /** Every status an update can assign is accepted and read back as
      itself, and a legacy value such as `blocked` is refused. */
  lemma StatusNamesRoundTrip(s: Status)
    ensures !s.OtherStatus? ==> ParseStatus(StatusName(s)) == Some(s)
    ensures ParseStatus("blocked") == None
  {
  }
}
