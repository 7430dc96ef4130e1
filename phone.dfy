/** The client's Israeli phone helpers: splitting a stored number into the
    prefix picker's value and the remaining digits, and validating what the
    user typed into the two inputs. */
module Phone {
  import opened JsText
  import opened UpdateUserDto

  /** The mobile prefixes the picker offers (056 and 057 are not among
      them) and the landline area codes. */
  const MobilePrefixes: seq<string> := ["050", "051", "052", "053", "054", "055", "058", "059"]
  const LandlinePrefixes: seq<string> := ["02", "03", "04", "08", "09"]

  /** `phone.replace(/[\s-]/g, "")`: the input without whitespace and
      dashes, everything else kept in order. */
  function Clean(s: string): (t: string)
    ensures |t| <= |s|
    ensures forall k | 0 <= k < |t| :: !IsSeparator(t[k])
  {
    if s == [] then []
    else (if IsSeparator(s[0]) then [] else [s[0]]) + Clean(s[1..])
  }

  /** What the cleaning pattern `[\s-]` matches. */
  predicate IsSeparator(c: char)
  {
    IsSpace(c) || c == '-'
  }

  /** Text without separators is left as it is. */
  lemma {:induction false} CleanKeepsPlain(s: string)
    requires forall k | 0 <= k < |s| :: !IsSeparator(s[k])
    ensures Clean(s) == s
  {
    if s != [] {
      CleanKeepsPlain(s[1..]);
    }
  }

  /** `number.replace(/\D/g, "")`: only the ASCII digits, in order. */
  function Digits(s: string): (t: string)
    ensures |t| <= |s| && AllDigits(t)
    ensures AllDigits(s) ==> t == s
  {
    if s == [] then []
    else (if IsDigit(s[0]) then [s[0]] else []) + Digits(s[1..])
  }

  datatype ParsedPhone = ParsedPhone(prefix: string, number: string)

  const Unparsed := ParsedPhone("", "")

  /** `parsePhone`: after cleaning, a listed mobile prefix takes the first
      three characters, else a landline code the first two; anything else
      gives two empty strings. */
  function ParsePhone(phone: string): (p: ParsedPhone)
    ensures p.prefix != [] ==> p.prefix + p.number == Clean(phone)
    ensures p.prefix != [] ==> p.prefix in MobilePrefixes || p.prefix in LandlinePrefixes
    ensures p.prefix == [] ==> p == Unparsed
    ensures phone == [] || !StartsWith(Clean(phone), "0") ==> p == Unparsed
  {
    if phone == [] then Unparsed else SplitPrefix(Clean(phone))
  }

  /** The prefix selection on the cleaned text. */
  function SplitPrefix(cleaned: string): (p: ParsedPhone)
    ensures p.prefix != [] ==> p.prefix + p.number == cleaned
    ensures p.prefix != [] ==> p.prefix in MobilePrefixes || p.prefix in LandlinePrefixes
    ensures p.prefix == [] ==> p == Unparsed
    ensures !StartsWith(cleaned, "0") ==> p == Unparsed
  {
    if !StartsWith(cleaned, "0") then Unparsed
    else if |cleaned| >= 3 && StartsWith(cleaned, "05") && cleaned[..3] in MobilePrefixes then
      ParsedPhone(cleaned[..3], cleaned[3..])
    else if |cleaned| >= 2 && cleaned[..2] in LandlinePrefixes then
      ParsedPhone(cleaned[..2], cleaned[2..])
    else Unparsed
  }

  /** `validatePhoneNumber`: both parts given, the prefix any three
      characters starting `05` or a landline code, and exactly seven digits
      in the number once non-digits are dropped. */
  function ValidatePhoneNumber(prefix: string, number: string): (ok: bool)
    ensures prefix == [] || number == [] ==> !ok
    ensures ok <==>
      prefix != [] && number != [] && |Digits(number)| == 7
      && ((StartsWith(prefix, "05") && |prefix| == 3) || prefix in LandlinePrefixes)
  {
    if prefix == [] || number == [] then false
    else if StartsWith(prefix, "05") && |prefix| == 3 then |Digits(number)| == 7
    else if prefix in LandlinePrefixes then |Digits(number)| == 7
    else false
  }

  /** Cleaning works piece by piece. */
  lemma {:induction false} CleanAppend(a: string, b: string)
    ensures Clean(a + b) == Clean(a) + Clean(b)
  {
    if a == [] {
      assert a + b == b;
    } else {
      assert (a + b)[0] == a[0];
      assert (a + b)[1..] == a[1..] + b;
      CleanAppend(a[1..], b);
    }
  }

  lemma MobileListed(d: char)
    requires d in "01234589"
    ensures ['0', '5', d] in MobilePrefixes
  {
    if d == '0' { assert ['0', '5', d] == MobilePrefixes[0]; }
    else if d == '1' { assert ['0', '5', d] == MobilePrefixes[1]; }
    else if d == '2' { assert ['0', '5', d] == MobilePrefixes[2]; }
    else if d == '3' { assert ['0', '5', d] == MobilePrefixes[3]; }
    else if d == '4' { assert ['0', '5', d] == MobilePrefixes[4]; }
    else if d == '5' { assert ['0', '5', d] == MobilePrefixes[5]; }
    else if d == '8' { assert ['0', '5', d] == MobilePrefixes[6]; }
    else { assert ['0', '5', d] == MobilePrefixes[7]; }
  }

  lemma LandlineListed(d: char)
    requires d in "23489"
    ensures ['0', d] in LandlinePrefixes
  {
    if d == '2' { assert ['0', d] == LandlinePrefixes[0]; }
    else if d == '3' { assert ['0', d] == LandlinePrefixes[1]; }
    else if d == '4' { assert ['0', d] == LandlinePrefixes[2]; }
    else if d == '8' { assert ['0', d] == LandlinePrefixes[3]; }
    else { assert ['0', d] == LandlinePrefixes[4]; }
  }

  /** A number starting with a prefix outside the picker's list, such as
      056, is not parsed, although the validator accepts that prefix and
      the server's phone pattern accepts the whole number. */
  lemma UnlistedMobilePrefixNotParsed()
    ensures ParsePhone("0561234567") == Unparsed
    ensures ValidatePhoneNumber("056", "1234567")
    ensures MatchesPhonePattern("0561234567")
  {
    UnlistedNotParsed();
    UnlistedValidates();
    UnlistedMatchesPattern();
  }

  lemma UnlistedNotParsed()
    ensures ParsePhone("0561234567") == Unparsed
  {
    var s := "0561234567";
    assert AllDigits(s) && s[0] == '0' && s[1] == '5' && s[2] == '6';
    UnlistedDigitsNotParsed(s);
  }

  lemma UnlistedDigitsNotParsed(s: string)
    requires AllDigits(s) && |s| >= 3 && s[0] == '0' && s[1] == '5' && (s[2] == '6' || s[2] == '7')
    ensures ParsePhone(s) == Unparsed
  {
    DigitsAreClean(s);
    UnlistedMobileNotSplit(s);
  }

  lemma UnlistedMobileNotSplit(c: string)
    requires |c| >= 3 && c[0] == '0' && c[1] == '5' && (c[2] == '6' || c[2] == '7')
    ensures SplitPrefix(c) == Unparsed
  {
    assert forall i | 0 <= i < |MobilePrefixes| :: MobilePrefixes[i][2] != c[2];
    assert c[..3][2] == c[2];
    assert forall i | 0 <= i < |LandlinePrefixes| :: LandlinePrefixes[i][1] != '5';
    assert c[..2][1] == '5';
  }

  lemma UnlistedValidates()
    ensures ValidatePhoneNumber("056", "1234567")
  {
    var n := "1234567";
    assert AllDigits(n);
    SevenDigitsValidate("056", n);
  }

  lemma SevenDigitsValidate(prefix: string, n: string)
    requires |prefix| == 3 && StartsWith(prefix, "05") && AllDigits(n) && |n| == 7
    ensures ValidatePhoneNumber(prefix, n)
  {
  }

  lemma UnlistedMatchesPattern()
    ensures MatchesPhonePattern("0561234567")
  {
    assert AllDigits("0561234567"[2..]);
  }

  lemma DigitsAreClean(s: string)
    requires AllDigits(s)
    ensures Clean(s) == s
  {
    assert forall k | 0 <= k < |s| :: !IsSeparator(s[k]) by {
      forall k | 0 <= k < |s| ensures !IsSeparator(s[k]) {
        assert IsDigit(s[k]);
      }
    }
    CleanKeepsPlain(s);
  }

  /** A listed mobile prefix splits after three characters, a landline
      code after two. */
  lemma ListedPrefixesSplit(s: string)
    requires forall k | 0 <= k < |s| :: !IsSeparator(s[k])
    ensures |s| >= 3 && s[..3] in MobilePrefixes ==> ParsePhone(s) == ParsedPhone(s[..3], s[3..])
    ensures |s| >= 2 && s[..2] in LandlinePrefixes ==> ParsePhone(s) == ParsedPhone(s[..2], s[2..])
  {
    CleanKeepsPlain(s);
    if |s| >= 3 && s[..3] in MobilePrefixes {
      assert forall i | 0 <= i < |MobilePrefixes| :: MobilePrefixes[i][..2] == "05";
      assert s[..3][..2] == s[..2];
    }
    if |s| >= 2 && s[..2] in LandlinePrefixes {
      assert forall i | 0 <= i < |LandlinePrefixes| :: LandlinePrefixes[i][0] == '0' && LandlinePrefixes[i][1] != '5';
      assert s[..2][1] == s[1];
    }
  }

  /** Whitespace and dashes are ignored: inserting one anywhere in a
      non-empty input changes nothing. */
  lemma ParseIgnoresSeparators(a: string, sep: char, b: string)
    requires IsSeparator(sep) && a + b != []
    ensures ParsePhone(a + [sep] + b) == ParsePhone(a + b)
  {
    CleanDropsSeparator(a, sep, b);
    CleanAppend(a, b);
  }

  lemma CleanDropsSeparator(a: string, sep: char, b: string)
    requires IsSeparator(sep)
    ensures Clean(a + [sep] + b) == Clean(a) + Clean(b)
  {
    assert a + [sep] + b == a + ([sep] + b);
    CleanAppend(a, [sep] + b);
    var t := [sep] + b;
    assert t[0] == sep && t[1..] == b;
    assert Clean(t) == Clean(b);
  }

  /** A number the server's phone pattern accepts, other than one with a
      056 or 057 prefix, parses to a prefix and number that validate. */
  lemma ServerPatternParsesAndValidates(s: string)
    requires MatchesPhonePattern(s)
    requires s[..3] != "056" && s[..3] != "057"
    ensures ParsePhone(s).prefix != []
    ensures ValidatePhoneNumber(ParsePhone(s).prefix, ParsePhone(s).number)
  {
    PhonePatternShapes(s);
    DigitsAreClean(s);
    assert StartsWith(s, "0");
    if s[1] == '5' {
      assert s[..3] == ['0', '5', s[2]];
      MobileListed(s[2]);
      assert AllDigits(s[3..]);
      assert Digits(s[3..]) == s[3..];
    } else {
      assert s[..2] == ['0', s[1]];
      LandlineListed(s[1]);
      assert !StartsWith(s, "05");
      assert AllDigits(s[2..]);
      assert Digits(s[2..]) == s[2..];
    }
  }
}
