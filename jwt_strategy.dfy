/** Reading the access token from the `Authorization` header (the Bearer
    scheme of RFC 6750, section 2.1) and turning a verified token's claims
    into the request's user. Signature and expiry checks belong to the JWT
    library and are outside the model. */
module JwtStrategy {
  import opened Wrappers
  import opened JsText
  import opened Users

  /** A header as the HTTP layer hands it over: one string, or a list when
      the header was repeated. */
  datatype HeaderValue = Text(s: string) | List(items: seq<string>)

  /** `headers.authorization ?? headers.Authorization`: the lower-case
      name wins whenever it is present. */
  function AuthorizationHeader(lower: Option<HeaderValue>, upper: Option<HeaderValue>)
    : (h: Option<HeaderValue>)
    ensures lower.Some? ==> h == lower
    ensures lower.None? ==> h == upper
  {
    if lower.Some? then lower else upper
  }

  /** The header has the form `<scheme> <token>[ <anything>]` with the
      scheme spelling "bearer" in any letter case and a non-empty token
      free of spaces. */
  ghost predicate BearerForm(h: string, token: string)
  {
    && token != [] && ' ' !in token
    && |h| >= 7 + |token|
    && ToLowerAscii(h[..6]) == "bearer" && h[6] == ' '
    && h[7..7 + |token|] == token
    && (|h| == 7 + |token| || h[7 + |token|] == ' ')
  }

  /** `extractJwtFromRequest`: the second space-separated field of the
      header when the first one is "bearer" in any case; null for a
      missing, empty or non-string header, another scheme, or an empty
      second field. */
  function ExtractJwt(lower: Option<HeaderValue>, upper: Option<HeaderValue>): (r: Option<string>)
    ensures r.Some? ==> r.value != [] && ' ' !in r.value
    ensures r.Some? ==> AuthorizationHeader(lower, upper).Some?
                        && AuthorizationHeader(lower, upper).value.Text?
  {
    match AuthorizationHeader(lower, upper)
    case Some(Text(h)) =>
      if h == [] then None
      else
        var fields := Split(h, ' ');
        var scheme := fields[0];
        var token := if |fields| >= 2 then fields[1] else [];
        if scheme == [] || ToLowerAscii(scheme) != "bearer" || token == [] then None
        else Some(token)
    case _ => None
  }

  /** A missing header, a repeated one and an empty one all yield null. */
  lemma NoUsableHeaderYieldsNull(items: seq<string>, upper: Option<HeaderValue>)
    ensures ExtractJwt(None, None) == None
    ensures ExtractJwt(Some(List(items)), upper) == None
    ensures ExtractJwt(Some(Text("")), upper) == None
    ensures upper.Some? && upper.value.List? ==> ExtractJwt(None, upper) == None
  {
  }

  /** A scheme spelling "bearer" holds no space. */
  lemma BearerSchemeHasNoSpace(scheme: string)
    requires ToLowerAscii(scheme) == "bearer"
    ensures |scheme| == 6 && ' ' !in scheme
  {
    forall k | 0 <= k < |scheme| ensures scheme[k] != ' ' {
      assert ToLowerAscii(scheme)[k] != ' ';
    }
  }

  /** The token is extracted exactly when the header has the Bearer form,
      and it is then the text between the first and the second space. */
  lemma ExtractJwtIffBearerForm(h: string, token: string, upper: Option<HeaderValue>)
    ensures ExtractJwt(Some(Text(h)), upper) == Some(token) <==> BearerForm(h, token)
  {
    if ExtractJwt(Some(Text(h)), upper) == Some(token) {
      ExtractedHasBearerForm(h, token, upper);
    }
    if BearerForm(h, token) {
      BearerFormIsExtracted(h, token, upper);
    }
  }

  lemma ExtractedHasBearerForm(h: string, token: string, upper: Option<HeaderValue>)
    requires ExtractJwt(Some(Text(h)), upper) == Some(token)
    ensures BearerForm(h, token)
  {
    var fields := Split(h, ' ');
    BearerSchemeHasNoSpace(fields[0]);
    var tail := if |fields| == 2 then [] else [' '] + Join(fields[2..], ' ');
    JoinUnfold(fields, ' ');
    JoinUnfold(fields[1..], ' ');
    assert fields[1..][1..] == fields[2..];
    assert h == fields[0] + [' '] + token + tail;
    Decompose(fields[0], token, tail, h);
  }

  lemma JoinUnfold(fields: seq<string>, c: char)
    requires |fields| >= 1
    ensures |fields| >= 2 ==> Join(fields, c) == fields[0] + [c] + Join(fields[1..], c)
    ensures |fields| == 1 ==> Join(fields, c) == fields[0]
  {
  }

  lemma Decompose(scheme: string, token: string, tail: string, h: string)
    requires h == scheme + [' '] + token + tail && |scheme| == 6
    ensures h[..6] == scheme && h[6] == ' ' && |h| >= 7 + |token|
    ensures h[7..7 + |token|] == token
    ensures tail == [] ==> |h| == 7 + |token|
    ensures tail != [] ==> h[7 + |token|] == tail[0]
  {
  }

  lemma BearerFormIsExtracted(h: string, token: string, upper: Option<HeaderValue>)
    requires BearerForm(h, token)
    ensures ExtractJwt(Some(Text(h)), upper) == Some(token)
  {
    var scheme := h[..6];
    var rest := h[7..];
    BearerSchemeHasNoSpace(scheme);
    SplitAround(h, 6);
    SuffixPrefix(h, 7, |token|);
    BearerFields(scheme, rest, token);
  }

  /** The fields of `<scheme> <token>[ <anything>]` start with the scheme
      and the token. */
  lemma BearerFields(scheme: string, rest: string, token: string)
    requires ' ' !in scheme && ' ' !in token
    requires |rest| >= |token| && rest[..|token|] == token
    requires |rest| == |token| || rest[|token|] == ' '
    ensures var fields := Split(scheme + [' '] + rest, ' ');
      |fields| >= 2 && fields[0] == scheme && fields[1] == token
  {
    SplitCons(scheme, ' ', rest);
    FirstFieldIsToken(rest, token);
  }

  lemma SuffixPrefix(h: string, i: nat, n: nat)
    requires i + n <= |h|
    ensures h[i..][..n] == h[i..i + n]
    ensures |h[i..]| == n || h[i..][n] == h[i + n]
  {
  }

  /** A string is its prefix, the character at `i`, and its suffix. */
  lemma SplitAround(h: string, i: nat)
    requires i < |h|
    ensures h == h[..i] + [h[i]] + h[i + 1..]
  {
  }

  lemma FirstFieldIsToken(rest: string, token: string)
    requires ' ' !in token && |rest| >= |token| && rest[..|token|] == token
    requires |rest| == |token| || rest[|token|] == ' '
    ensures Split(rest, ' ')[0] == token
  {
    if |rest| == |token| {
      assert rest == token;
      SplitNone(token, ' ');
    } else {
      SplitAround(rest, |token|);
      SplitCons(token, ' ', rest[|token| + 1..]);
    }
  }

  /** Anything after the token is ignored, and doubling the space after
      the scheme (or giving the scheme alone) leaves no token. */
  lemma TrailingFieldsIgnoredEmptyTokenRejected(token: string, rest: string)
    requires token != [] && ' ' !in token
    ensures ExtractJwt(Some(Text("Bearer " + token + " " + rest)), None) == Some(token)
    ensures ExtractJwt(Some(Text("bearer " + token)), None) == Some(token)
    ensures ExtractJwt(Some(Text("Bearer  " + token)), None) == None
    ensures ExtractJwt(Some(Text("Bearer")), None) == None
  {
    BearerTokenAccepted(token, rest);
    DoubleSpaceRejected(token);
    SplitNone("Bearer", ' ');
  }

  lemma BearerTokenAccepted(token: string, rest: string)
    requires token != [] && ' ' !in token
    ensures ExtractJwt(Some(Text("Bearer " + token + " " + rest)), None) == Some(token)
    ensures ExtractJwt(Some(Text("bearer " + token)), None) == Some(token)
  {
    var h1 := "Bearer " + token + " " + rest;
    assert ToLowerAscii(h1[..6]) == "bearer" by { assert h1[..6] == "Bearer"; }
    Decompose("Bearer", token, " " + rest, h1);
    BearerFormIsExtracted(h1, token, None);
    var h2 := "bearer " + token;
    assert ToLowerAscii(h2[..6]) == "bearer" by { assert h2[..6] == "bearer"; }
    Decompose("bearer", token, [], h2);
    BearerFormIsExtracted(h2, token, None);
  }

  lemma DoubleSpaceRejected(token: string)
    ensures ExtractJwt(Some(Text("Bearer  " + token)), None) == None
  {
    assert "Bearer  " + token == "Bearer" + [' '] + ("" + [' '] + token);
    SplitCons("Bearer", ' ', "" + [' '] + token);
    SplitCons("", ' ', token);
  }

  /** The claims the backend signs into an access token. */
  datatype JwtPayload = JwtPayload(sub: string, role: Role, deviceId: string)

  /** The user attached to an authenticated request. */
  datatype AuthUser = AuthUser(userId: string, role: Role, deviceId: string)

  /** `validate`: the subject becomes the user id; role and device id are
      carried over. */
  function Validate(payload: JwtPayload): (u: AuthUser)
    ensures u.userId == payload.sub && u.role == payload.role && u.deviceId == payload.deviceId
  {
    AuthUser(payload.sub, payload.role, payload.deviceId)
  }

  /** Nothing of the claims is lost: distinct payloads give distinct
      users, and every user comes from exactly one payload. */
  lemma ValidateIsBijective(p: JwtPayload, q: JwtPayload, u: AuthUser)
    ensures Validate(p) == Validate(q) ==> p == q
    ensures Validate(JwtPayload(u.userId, u.role, u.deviceId)) == u
  {
  }
}
