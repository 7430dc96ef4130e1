/** The handful of ECMAScript string operations the backend and frontend
    rules are built from: `trim`, `split` on one character, `toLowerCase`
    restricted to ASCII letters, and `startsWith`. */
module JsText {
  import opened Wrappers

  /** The characters `String.prototype.trim` removes: the ECMAScript
      WhiteSpace and LineTerminator productions (ECMA-262, sections 12.2
      and 12.3). */
  predicate IsSpace(c: char)
  {
    || c == '\t' || c == '\n' || c == '\U{000B}' || c == '\U{000C}' || c == '\r' || c == ' '
    || c == '\U{00A0}' || c == '\U{1680}' || ('\U{2000}' <= c <= '\U{200A}')
    || c == '\U{2028}' || c == '\U{2029}' || c == '\U{202F}' || c == '\U{205F}'
    || c == '\U{3000}' || c == '\U{FEFF}'
  }

  /** How many whitespace characters open `s`. */
  function LeadingSpaces(s: string): (n: nat)
    ensures n <= |s|
    ensures forall k | 0 <= k < n :: IsSpace(s[k])
    ensures n < |s| ==> !IsSpace(s[n])
  {
    if s == [] || !IsSpace(s[0]) then 0 else 1 + LeadingSpaces(s[1..])
  }

  /** How many whitespace characters close `s`. */
  function TrailingSpaces(s: string): (n: nat)
    ensures n <= |s|
    ensures forall k | |s| - n <= k < |s| :: IsSpace(s[k])
    ensures n < |s| ==> !IsSpace(s[|s| - 1 - n])
  {
    if s == [] || !IsSpace(s[|s| - 1]) then 0 else 1 + TrailingSpaces(s[..|s| - 1])
  }

  /** `s.trim()`: `s` without its leading and trailing whitespace. The
      result is the infix of `s` starting after the leading whitespace,
      everything around it is whitespace, and it neither starts nor ends
      with whitespace. */
  function Trim(s: string): (t: string)
    ensures |t| <= |s|
    ensures LeadingSpaces(s) + |t| <= |s| && t == s[LeadingSpaces(s)..LeadingSpaces(s) + |t|]
    ensures forall k | 0 <= k < |s| && (k < LeadingSpaces(s) || k >= LeadingSpaces(s) + |t|) ::
              IsSpace(s[k])
    ensures t != [] ==> !IsSpace(t[0]) && !IsSpace(t[|t| - 1])
    ensures t == [] <==> forall k | 0 <= k < |s| :: IsSpace(s[k])
  {
    var a := LeadingSpaces(s);
    if a == |s| then [] else s[a..|s| - TrailingSpaces(s)]
  }

  /** A character that is not whitespace survives trimming, in place. */
  lemma NonSpaceInsideTrim(s: string, k: nat)
    requires k < |s| && !IsSpace(s[k])
    ensures LeadingSpaces(s) <= k < LeadingSpaces(s) + |Trim(s)|
  {
    var t := Trim(s);
    var a := LeadingSpaces(s);
    assert IsSpace(s[k]) || a <= k < a + |t|;
  }

  /** Trimming a string that neither starts nor ends with whitespace gives
      it back; in particular trimming is idempotent. */
  lemma TrimKeepsClean(s: string)
    requires s != [] ==> !IsSpace(s[0]) && !IsSpace(s[|s| - 1])
    ensures Trim(s) == s
  {
    if s != [] {
      assert LeadingSpaces(s) == 0;
      assert TrailingSpaces(s) == 0;
    }
  }

  lemma TrimIdempotent(s: string)
    ensures Trim(Trim(s)) == Trim(s)
  {
    TrimKeepsClean(Trim(s));
  }

  /** Surrounding a string that does not start or end with whitespace by
      whitespace changes nothing once trimmed. */
  lemma TrimStripsPadding(pre: string, t: string, post: string)
    requires forall k | 0 <= k < |pre| :: IsSpace(pre[k])
    requires forall k | 0 <= k < |post| :: IsSpace(post[k])
    requires t != [] ==> !IsSpace(t[0]) && !IsSpace(t[|t| - 1])
    ensures Trim(pre + t + post) == t
  {
    var s := pre + t + post;
    if t == [] {
      assert forall k | 0 <= k < |s| :: IsSpace(s[k]) by {
        forall k | 0 <= k < |s| ensures IsSpace(s[k]) {
          if k < |pre| { assert s[k] == pre[k]; } else { assert s[k] == post[k - |pre|]; }
        }
      }
    } else {
      assert s[|pre|] == t[0];
      LeadingOfPadded(pre, t + post);
      assert pre + t + post == pre + (t + post);
      var r := Trim(s);
      // r starts where t starts, ends at a character that is not
      // whitespace, and is followed by whitespace only
      assert !IsSpace(s[|pre| + |t| - 1]);
      assert forall k | |pre| + |t| <= k < |s| :: s[k] == post[k - |pre| - |t|];
      assert r != [];
      assert r[|r| - 1] == s[|pre| + |r| - 1];
      assert |r| == |t|;
      assert r == s[|pre|..|pre| + |t|];
      assert s[|pre|..|pre| + |t|] == t;
    }
  }

  lemma LeadingOfPadded(pre: string, rest: string)
    requires forall k | 0 <= k < |pre| :: IsSpace(pre[k])
    requires rest != [] && !IsSpace(rest[0])
    ensures LeadingSpaces(pre + rest) == |pre|
  {
    var s := pre + rest;
    var n := LeadingSpaces(s);
    assert s[|pre|] == rest[0];
    assert forall k | 0 <= k < |pre| :: s[k] == pre[k];
  }

  /** The position of the first `c` in `s`, if any. */
  function IndexOf(s: string, c: char): (r: Option<nat>)
    ensures r.Some? ==> r.value < |s| && s[r.value] == c && c !in s[..r.value]
    ensures r.None? <==> c !in s
  {
    if s == [] then None
    else if s[0] == c then Some(0)
    else match IndexOf(s[1..], c)
      case None => None
      case Some(i) =>
        assert s[..i + 1] == [s[0]] + s[1..][..i];
        Some(i + 1)
  }

  /** The inverse of `Split`: the fields glued back with the separator. */
  function Join(fields: seq<string>, c: char): string
    requires |fields| >= 1
  {
    if |fields| == 1 then fields[0] else fields[0] + [c] + Join(fields[1..], c)
  }

  /** `s.split(c)` for a one-character separator: the maximal runs between
      separators, empty ones included. There is always at least one field,
      no field holds the separator, and gluing them back gives `s`. */
  function Split(s: string, c: char): (fields: seq<string>)
    ensures |fields| >= 1
    ensures forall i | 0 <= i < |fields| :: c !in fields[i]
    ensures Join(fields, c) == s
    decreases |s|
  {
    match IndexOf(s, c)
    case None => [s]
    case Some(i) =>
      var rest := Split(s[i + 1..], c);
      assert s == s[..i] + [c] + s[i + 1..];
      assert ([s[..i]] + rest)[1..] == rest;
      [s[..i]] + rest
  }

  /** Splitting after a field free of the separator peels that field off. */
  lemma SplitCons(a: string, c: char, b: string)
    requires c !in a
    ensures Split(a + [c] + b, c) == [a] + Split(b, c)
  {
    var s := a + [c] + b;
    var i := IndexOf(s, c);
    assert s[|a|] == c;
    assert s[..|a|] == a;
    assert forall k | 0 <= k < |a| :: s[k] != c;
    assert forall j | |a| < j <= |s| :: s[..j][|a|] == c;
    assert i == Some(|a|);
    assert s[|a| + 1..] == b;
  }

  /** Splitting a string free of the separator gives it as the one field. */
  lemma SplitNone(s: string, c: char)
    requires c !in s
    ensures Split(s, c) == [s]
  {
  }

  /** `Split` undoes `Join` whenever no field holds the separator. */
  lemma {:induction false} SplitJoin(fields: seq<string>, c: char)
    requires |fields| >= 1
    requires forall i | 0 <= i < |fields| :: c !in fields[i]
    ensures Split(Join(fields, c), c) == fields
  {
    if |fields| == 1 {
      SplitNone(fields[0], c);
    } else {
      SplitJoin(fields[1..], c);
      SplitCons(fields[0], c, Join(fields[1..], c));
    }
  }

  /** `s.toLowerCase()` on ASCII letters; every other character is kept. */
  function ToLowerAscii(s: string): (t: string)
    ensures |t| == |s|
    ensures forall k | 0 <= k < |s| ::
      t[k] == if 'A' <= s[k] <= 'Z' then (s[k] as int + 32) as char else s[k]
  {
    seq(|s|, k requires 0 <= k < |s| => if 'A' <= s[k] <= 'Z' then (s[k] as int + 32) as char else s[k])
  }

  /** Lower-casing twice is lower-casing once, and a string of lower-case
      letters is its own lower case. */
  lemma ToLowerIdempotent(s: string)
    ensures ToLowerAscii(ToLowerAscii(s)) == ToLowerAscii(s)
    ensures (forall k | 0 <= k < |s| :: 'a' <= s[k] <= 'z') ==> ToLowerAscii(s) == s
  {
  }

  /** A string whose lower case is an all-lower-case word is that word
      with any of its letters capitalised; in particular it has the same
      length and the same non-letter characters. */
  lemma LowerMatchesCaseInsensitively(s: string, w: string)
    requires forall k | 0 <= k < |w| :: 'a' <= w[k] <= 'z' || w[k] == ' '
    ensures ToLowerAscii(s) == w <==>
      |s| == |w| && forall k | 0 <= k < |w| :: s[k] == w[k] || (w[k] != ' ' && s[k] as int == w[k] as int - 32)
  {
    if |s| == |w| && forall k | 0 <= k < |w| :: s[k] == w[k] || (w[k] != ' ' && s[k] as int == w[k] as int - 32) {
      var t := ToLowerAscii(s);
      forall k | 0 <= k < |w| ensures t[k] == w[k] { }
    }
  }

  predicate StartsWith(s: string, p: string)
  {
    |p| <= |s| && s[..|p|] == p
  }
}
