/** The request checks of the gate HTTP endpoints: the idempotency key of
    an open request, the key of the administrator's back door, and the
    paging limits of the log and diagnostics listings. */
module GateController {
  import opened Wrappers
  import opened JsText
  import opened Users

  /** A JavaScript number as `Number(text)` produces it. */
  datatype JsNumber = Finite(r: real) | NaN | PosInf | NegInf

  predicate IsHexDigit(c: char)
  {
    '0' <= c <= '9' || 'a' <= c <= 'f' || 'A' <= c <= 'F'
  }

  /** Positions of the hyphens in the 8-4-4-4-12 layout. */
  predicate IsHyphenPosition(k: int)
  {
    k == 8 || k == 13 || k == 18 || k == 23
  }

  /** The textual UUID layout of RFC 4122, section 3: 36 characters, hex
      digits in either case with hyphens after the 8th, 12th, 16th and 20th
      digit. Version and variant bits are not checked. */
  predicate IsUuid(s: string)
  {
    |s| == 36 && forall k | 0 <= k < 36 :: if IsHyphenPosition(k) then s[k] == '-' else IsHexDigit(s[k])
  }

  predicate AllHex(g: string)
  {
    forall k | 0 <= k < |g| :: IsHexDigit(g[k])
  }

  datatype RequestIdError = MissingRequestId | MalformedRequestId

  /** The `X-Request-Id` check of `open`: a missing or empty header, then a
      value not in UUID layout, are rejected. */
  function CheckRequestId(header: Option<string>): (r: Result<string, RequestIdError>)
    ensures r == Err(MissingRequestId) <==> !Truthy(header)
    ensures r.Ok? <==> Truthy(header) && IsUuid(header.value)
    ensures r.Ok? ==> r.value == header.value
  {
    if !Truthy(header) then Err(MissingRequestId)
    else if !IsUuid(header.value) then Err(MalformedRequestId)
    else Ok(header.value)
  }

  /** A UUID is exactly five hex groups of 8, 4, 4, 4 and 12 digits joined
      by hyphens. */
  lemma UuidIsFiveHexGroups(a: string, b: string, c: string, d: string, e: string)
    requires |a| == 8 && |b| == 4 && |c| == 4 && |d| == 4 && |e| == 12
    ensures IsUuid(a + "-" + b + "-" + c + "-" + d + "-" + e)
      <==> AllHex(a) && AllHex(b) && AllHex(c) && AllHex(d) && AllHex(e)
  {
    var s := a + "-" + b + "-" + c + "-" + d + "-" + e;
    UuidLayout(a, b, c, d, e, s);
    if AllHex(a) && AllHex(b) && AllHex(c) && AllHex(d) && AllHex(e) {
      HexGroupsMakeUuid(a, b, c, d, e, s);
    }
    if IsUuid(s) {
      UuidHasHexGroups(a, b, c, d, e, s);
    }
  }

  /** Where each group and hyphen lands in the joined text. */
  predicate Laid(a: string, b: string, c: string, d: string, e: string, s: string)
    requires |a| == 8 && |b| == 4 && |c| == 4 && |d| == 4 && |e| == 12
  {
    && |s| == 36
    && (forall k | 0 <= k < 8 :: s[k] == a[k])
    && (forall k | 0 <= k < 4 :: s[9 + k] == b[k] && s[14 + k] == c[k] && s[19 + k] == d[k])
    && (forall k | 0 <= k < 12 :: s[24 + k] == e[k])
    && s[8] == '-' && s[13] == '-' && s[18] == '-' && s[23] == '-'
  }

  lemma UuidLayout(a: string, b: string, c: string, d: string, e: string, s: string)
    requires |a| == 8 && |b| == 4 && |c| == 4 && |d| == 4 && |e| == 12
    requires s == a + "-" + b + "-" + c + "-" + d + "-" + e
    ensures Laid(a, b, c, d, e, s)
  {
  }

  lemma HexGroupsMakeUuid(a: string, b: string, c: string, d: string, e: string, s: string)
    requires |a| == 8 && |b| == 4 && |c| == 4 && |d| == 4 && |e| == 12
    requires Laid(a, b, c, d, e, s)
    requires AllHex(a) && AllHex(b) && AllHex(c) && AllHex(d) && AllHex(e)
    ensures IsUuid(s)
  {
    forall k | 0 <= k < 36
      ensures if IsHyphenPosition(k) then s[k] == '-' else IsHexDigit(s[k])
    {
      if k < 8 { assert s[k] == a[k]; }
      else if 8 < k < 13 { assert s[k] == b[k - 9]; }
      else if 13 < k < 18 { assert s[k] == c[k - 14]; }
      else if 18 < k < 23 { assert s[k] == d[k - 19]; }
      else if 23 < k { assert s[k] == e[k - 24]; }
    }
  }

  lemma UuidHasHexGroups(a: string, b: string, c: string, d: string, e: string, s: string)
    requires |a| == 8 && |b| == 4 && |c| == 4 && |d| == 4 && |e| == 12
    requires Laid(a, b, c, d, e, s)
    requires IsUuid(s)
    ensures AllHex(a) && AllHex(b) && AllHex(c) && AllHex(d) && AllHex(e)
  {
    forall k | 0 <= k < 8 ensures IsHexDigit(a[k]) { assert s[k] == a[k]; }
    forall k | 0 <= k < 4 ensures IsHexDigit(b[k]) && IsHexDigit(c[k]) && IsHexDigit(d[k]) {
      assert !IsHyphenPosition(9 + k) && !IsHyphenPosition(14 + k) && !IsHyphenPosition(19 + k);
    }
    forall k | 0 <= k < 12 ensures IsHexDigit(e[k]) { assert !IsHyphenPosition(24 + k); }
  }

  /** The check ignores letter case: a value passes exactly when its lower
      case does. */
  lemma RequestIdCheckIgnoresCase(s: string)
    ensures IsUuid(s) <==> IsUuid(ToLowerAscii(s))
  {
    var t := ToLowerAscii(s);
    if |s| == 36 {
      forall k | 0 <= k < 36 ensures IsHexDigit(s[k]) <==> IsHexDigit(t[k]) { }
      forall k | 0 <= k < 36 ensures s[k] == '-' <==> t[k] == '-' { }
    }
  }

  datatype AdminOpenError = KeyNotConfigured | WrongKey

  /** `adminOpen`: the expected key is the configured one, else the
      environment's; without one nothing opens, and otherwise the supplied
      key must be non-empty and equal to it. */
  function CheckAdminKey(configured: Option<string>, environment: Option<string>,
                         key: Option<string>): (r: Result<(), AdminOpenError>)
    ensures r.Ok? <==>
      (Truthy(configured) && key == configured) || (!Truthy(configured) && Truthy(environment) && key == environment)
    ensures r == Err(KeyNotConfigured) <==> !Truthy(configured) && !Truthy(environment)
  {
    var expected := if Truthy(configured) then configured else environment;
    if !Truthy(expected) then Err(KeyNotConfigured)
    else if !Truthy(key) || key.value != expected.value then Err(WrongKey)
    else Ok(())
  }

  /** `Math.min(Math.max(n, 1), 200)` for a number that is not NaN. */
  function ClampToPage(n: JsNumber): (r: real)
    requires !n.NaN?
    ensures 1.0 <= r <= 200.0
    ensures n.Finite? && 1.0 <= n.r <= 200.0 ==> r == n.r
    ensures n.Finite? && n.r < 1.0 ==> r == 1.0
    ensures n.Finite? && n.r > 200.0 ==> r == 200.0
  {
    match n
    case Finite(x) => if x < 1.0 then 1.0 else if x > 200.0 then 200.0 else x
    case PosInf => 200.0
    case NegInf => 1.0
  }

  /** The `logs` limit: 50 when the parameter is absent or empty or does
      not parse to a finite number, otherwise clamped into [1, 200].
      `parsed` is `Number(limit)`. */
  function LogsLimit(limit: Option<string>, parsed: JsNumber): (r: real)
    ensures 1.0 <= r <= 200.0
    ensures !Truthy(limit) || !parsed.Finite? ==> r == 50.0
    ensures Truthy(limit) && parsed.Finite? ==> r == ClampToPage(parsed)
  {
    if !Truthy(limit) then 50.0
    else if !parsed.Finite? then 50.0
    else ClampToPage(parsed)
  }

  /** JavaScript truthiness of a number. */
  predicate NumTruthy(n: JsNumber)
  {
    !n.NaN? && n != Finite(0.0)
  }

  /** The diagnostics limit: `Number(limit) || 50` clamped into [1, 200],
      so 0 and NaN mean 50 while an infinite value is clamped. */
  function DiagnosticsLimit(limit: Option<string>, parsed: JsNumber): (r: real)
    ensures 1.0 <= r <= 200.0
    ensures !Truthy(limit) || !NumTruthy(parsed) ==> r == 50.0
    ensures Truthy(limit) && NumTruthy(parsed) ==> r == ClampToPage(parsed)
  {
    if !Truthy(limit) then 50.0
    else ClampToPage(if NumTruthy(parsed) then parsed else Finite(50.0))
  }

  /** The diagnostics skip: `Math.max(Number(skip) || 0, 0)`; never
      negative nor NaN, but `"Infinity"` passes through. */
  function DiagnosticsSkip(skip: Option<string>, parsed: JsNumber): (r: JsNumber)
    ensures r.PosInf? || (r.Finite? && r.r >= 0.0)
    ensures r.PosInf? <==> Truthy(skip) && parsed.PosInf?
    ensures Truthy(skip) && parsed.Finite? && parsed.r > 0.0 ==> r == parsed
  {
    if !Truthy(skip) then Finite(0.0)
    else
      var n := if NumTruthy(parsed) then parsed else Finite(0.0);
      match n
      case Finite(x) => if x < 0.0 then Finite(0.0) else Finite(x)
      case PosInf => PosInf
      case _ => Finite(0.0)
  }

  /** The two listings treat a zero limit differently: the logs clamp it up
      to 1, the diagnostics take the default 50. */
  lemma ZeroLimitTreatedDifferently()
    ensures LogsLimit(Some("0"), Finite(0.0)) == 1.0
    ensures DiagnosticsLimit(Some("0"), Finite(0.0)) == 50.0
    ensures LogsLimit(Some("x"), NaN) == 50.0 && DiagnosticsLimit(Some("x"), NaN) == 50.0
    ensures LogsLimit(Some("Infinity"), PosInf) == 50.0
    ensures DiagnosticsLimit(Some("Infinity"), PosInf) == 200.0
  {
  }
}
