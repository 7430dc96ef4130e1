/** How the approval e-mail writes a user's name inside its right-to-left
    template: Hebrew names as they are, Latin names wrapped in a
    left-to-right span so the first name stays first. */
module EmailService {
  import opened JsText

  /** The Hebrew block of Unicode, U+0590 to U+05FF. */
  predicate IsHebrew(c: char)
  {
    '\U{0590}' <= c <= '\U{05FF}'
  }

  /** `containsHebrew`. */
  predicate ContainsHebrew(s: string)
  {
    exists k | 0 <= k < |s| :: IsHebrew(s[k])
  }

  const LtrOpen: string := "<span dir=\"ltr\">"
  const LtrClose: string := "</span>"

  /** `formatFullName`: first and last name joined by a space and trimmed;
      wrapped in a left-to-right span unless either part holds Hebrew. The
      written name always appears whole, and it is wrapped exactly when it
      holds no Hebrew letter. */
  function FormatFullName(firstName: string, lastName: string): (r: string)
    ensures var name := Trim(firstName + " " + lastName);
      (r == name <==> ContainsHebrew(name)) && (r != name ==> r == LtrOpen + name + LtrClose)
  {
    var fullName := Trim(firstName + " " + lastName);
    HebrewOfConcat(firstName, " ");
    HebrewOfConcat(firstName + " ", lastName);
    assert !ContainsHebrew(" ");
    TrimKeepsHebrew(firstName + " " + lastName);
    assert |LtrOpen + fullName + LtrClose| > |fullName|;
    if ContainsHebrew(firstName) || ContainsHebrew(lastName) then fullName
    else LtrOpen + fullName + LtrClose
  }

  /** Hebrew in a concatenation comes from one of its parts. */
  lemma HebrewOfConcat(a: string, b: string)
    ensures ContainsHebrew(a + b) <==> ContainsHebrew(a) || ContainsHebrew(b)
  {
    var s := a + b;
    if ContainsHebrew(s) {
      var k :| 0 <= k < |s| && IsHebrew(s[k]);
      if k < |a| { assert a[k] == s[k]; } else { assert b[k - |a|] == s[k]; }
    }
    if ContainsHebrew(a) {
      var k :| 0 <= k < |a| && IsHebrew(a[k]);
      assert s[k] == a[k];
    }
    if ContainsHebrew(b) {
      var k :| 0 <= k < |b| && IsHebrew(b[k]);
      assert s[|a| + k] == b[k];
    }
  }

  /** Trimming never removes a Hebrew letter. */
  lemma TrimKeepsHebrew(s: string)
    ensures ContainsHebrew(Trim(s)) <==> ContainsHebrew(s)
  {
    HebrewSurvivesTrim(s);
    TrimmedHebrewFromInput(s);
  }

  lemma HebrewSurvivesTrim(s: string)
    ensures ContainsHebrew(s) ==> ContainsHebrew(Trim(s))
  {
    if ContainsHebrew(s) {
      var k :| 0 <= k < |s| && IsHebrew(s[k]);
      HebrewAtSurvivesTrim(s, k);
    }
  }

  lemma HebrewAtSurvivesTrim(s: string, k: nat)
    requires k < |s| && IsHebrew(s[k])
    ensures ContainsHebrew(Trim(s))
  {
    HebrewIsNotSpace(s[k]);
    NonSpaceInsideTrim(s, k);
    InfixHoldsHebrew(s, LeadingSpaces(s), Trim(s), k);
  }

  /** A Hebrew letter inside the infix `t` of `s` is a Hebrew letter of `t`. */
  lemma InfixHoldsHebrew(s: string, a: nat, t: string, k: nat)
    requires a + |t| <= |s| && t == s[a..a + |t|]
    requires a <= k < a + |t| && IsHebrew(s[k])
    ensures ContainsHebrew(t)
  {
    assert t[k - a] == s[k];
  }

  lemma TrimmedHebrewFromInput(s: string)
    ensures ContainsHebrew(Trim(s)) ==> ContainsHebrew(s)
  {
    var t := Trim(s);
    if ContainsHebrew(t) {
      InfixHebrew(s, LeadingSpaces(s), t);
    }
  }

  lemma InfixHebrew(s: string, a: nat, t: string)
    requires a + |t| <= |s| && t == s[a..a + |t|] && ContainsHebrew(t)
    ensures ContainsHebrew(s)
  {
    var k :| 0 <= k < |t| && IsHebrew(t[k]);
    assert s[a + k] == t[k];
  }

  lemma HebrewIsNotSpace(c: char)
    requires IsHebrew(c)
    ensures !IsSpace(c)
  {
  }

  /** Names without surrounding whitespace are joined with exactly one
      space; an empty last name leaves the first name alone. */
  lemma JoinsWithOneSpace(firstName: string, lastName: string)
    requires firstName != [] && !IsSpace(firstName[0]) && !IsSpace(firstName[|firstName| - 1])
    requires lastName != [] && !IsSpace(lastName[0]) && !IsSpace(lastName[|lastName| - 1])
    ensures Trim(firstName + " " + lastName) == firstName + " " + lastName
    ensures Trim(firstName + " " + "") == firstName
  {
    var s := firstName + " " + lastName;
    assert s[0] == firstName[0] && s[|s| - 1] == lastName[|lastName| - 1];
    TrimKeepsClean(s);
    assert firstName + " " + "" == [] + firstName + [' '];
    TrimStripsPadding([], firstName, [' ']);
  }
}
