/** The token the `me` endpoint reads back from the `Authorization` header
    to report the session's expiry. */
module AuthController {
  import opened Wrappers
  import opened JsText
  import opened JwtStrategy

  /** A header present as a non-empty string (`h && typeof h === 'string'`). */
  predicate NonEmptyText(h: Option<HeaderValue>)
  {
    h.Some? && h.value.Text? && h.value.s != []
  }

  /** The token `me()` hands on: undefined without a usable header; the
      rest after a leading "bearer " (any case), trimmed; otherwise the
      whole header, trimmed. */
  function MeToken(lower: Option<HeaderValue>, upper: Option<HeaderValue>): (token: Option<string>)
    ensures token.Some? <==> NonEmptyText(AuthorizationHeader(lower, upper))
    ensures token.Some? && token.value != [] ==>
      !IsSpace(token.value[0]) && !IsSpace(token.value[|token.value| - 1])
  {
    match AuthorizationHeader(lower, upper)
    case Some(Text(h)) =>
      if h == [] then None
      else if StartsWith(ToLowerAscii(h), "bearer ") then Some(Trim(h[7..]))
      else Some(Trim(h))
    case _ => None
  }

  /** The arguments `me()` passes to `getMe`. */
  datatype GetMeCall = GetMeCall(userId: string, token: Option<string>)

  /** `me()`: the request's user id and the extracted token, unchanged. */
  function Me(user: AuthUser, lower: Option<HeaderValue>, upper: Option<HeaderValue>): (call: GetMeCall)
    ensures call.userId == user.userId
    ensures call.token.None? <==> !NonEmptyText(AuthorizationHeader(lower, upper))
  {
    GetMeCall(user.userId, MeToken(lower, upper))
  }

  /** A header opening with the scheme in any case and one space gives the
      trimmed remainder. */
  lemma BearerPrefixStripped(scheme: string, body: string)
    requires ToLowerAscii(scheme) == "bearer"
    ensures MeToken(Some(Text(scheme + " " + body)), None) == Some(Trim(body))
  {
    var h := scheme + " " + body;
    BearerSchemeHasNoSpace(scheme);
    assert ToLowerAscii(h)[..7] == ToLowerAscii(scheme) + " ";
    assert h[7..] == body;
  }

  /** Any other non-empty header is used whole, trimmed. */
  lemma OtherHeaderTrimmedWhole(h: string)
    requires h != [] && !StartsWith(ToLowerAscii(h), "bearer ")
    ensures MeToken(Some(Text(h)), None) == Some(Trim(h))
  {
  }

  /** For a well-formed `Bearer <token>` header both readers of the header
      find the same token. */
  lemma AgreesWithStrategyOnPlainBearer(scheme: string, token: string)
    requires ToLowerAscii(scheme) == "bearer"
    requires token != [] && ' ' !in token && !IsSpace(token[0]) && !IsSpace(token[|token| - 1])
    ensures MeToken(Some(Text(scheme + " " + token)), None) == Some(token)
    ensures ExtractJwt(Some(Text(scheme + " " + token)), None) == Some(token)
  {
    BearerPrefixStripped(scheme, token);
    TrimKeepsClean(token);
    StrategyReadsPlainBearer(scheme, token);
  }

  lemma StrategyReadsPlainBearer(scheme: string, token: string)
    requires ToLowerAscii(scheme) == "bearer"
    requires token != [] && ' ' !in token
    ensures ExtractJwt(Some(Text(scheme + " " + token)), None) == Some(token)
  {
    var h := scheme + " " + token;
    BearerSchemeHasNoSpace(scheme);
    assert h[..6] == scheme && h[6] == ' ' && h[7..] == token;
    BearerFormIsExtracted(h, token, None);
  }

  /** The two readers differ on a doubled space: the strategy rejects the
      header while `me()` still reads the token. */
  lemma DoubleSpaceReadersDisagree(token: string)
    requires token != [] && !IsSpace(token[0]) && !IsSpace(token[|token| - 1])
    ensures ExtractJwt(Some(Text("Bearer  " + token)), None) == None
    ensures MeToken(Some(Text("Bearer  " + token)), None) == Some(token)
  {
    DoubleSpaceRejected(token);
    MeReadsAfterDoubleSpace(token);
  }

  lemma MeReadsAfterDoubleSpace(token: string)
    requires token != [] && !IsSpace(token[0]) && !IsSpace(token[|token| - 1])
    ensures MeToken(Some(Text("Bearer  " + token)), None) == Some(token)
  {
    var body := " " + token;
    var h := "Bearer" + " " + body;
    assert h == "Bearer  " + token;
    CapitalisedBearer();
    BearerPrefixStripped("Bearer", body);
    TrimOfOneLeadingSpace(token);
  }

  lemma CapitalisedBearer()
    ensures ToLowerAscii("Bearer") == "bearer"
  {
    var t := ToLowerAscii("Bearer");
    assert t[0] == 'b' && t[1] == 'e' && t[2] == 'a' && t[3] == 'r' && t[4] == 'e' && t[5] == 'r';
  }

  lemma TrimOfOneLeadingSpace(token: string)
    requires token != [] && !IsSpace(token[0]) && !IsSpace(token[|token| - 1])
    ensures Trim(" " + token) == token
  {
    assert " " + token == [' '] + token + [];
    TrimStripsPadding([' '], token, []);
  }
}
