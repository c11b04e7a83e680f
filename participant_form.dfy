/** The participant form check of handleParticipantForm: a participant id and
    an email that are non-blank after String.prototype.trim, and an email that
    matches /^[^\s@]+@[^\s@]+\.[^\s@]+$/. */
module ParticipantForm {

  /** The characters JavaScript's trim removes and its regex class \s matches:
      WhiteSpace (tab, vertical tab, form feed, space, no-break space, the byte
      order mark and the other Unicode space separators) and LineTerminator. */
  predicate IsWhitespace(c: char)
  {
    c == '\t' || c == '\n' || c == '\U{000B}' || c == '\U{000C}' || c == '\r' || c == ' '
    || c == '\U{00A0}' || c == '\U{1680}' || ('\U{2000}' <= c <= '\U{200A}')
    || c == '\U{2028}' || c == '\U{2029}' || c == '\U{202F}' || c == '\U{205F}'
    || c == '\U{3000}' || c == '\U{FEFF}'
  }

  predicate AllWhitespace(s: string)
  {
    forall k :: 0 <= k < |s| ==> IsWhitespace(s[k])
  }

  function TrimStart(s: string): string
  {
    if |s| > 0 && IsWhitespace(s[0]) then TrimStart(s[1..]) else s
  }

  function TrimEnd(s: string): string
  {
    if |s| > 0 && IsWhitespace(s[|s| - 1]) then TrimEnd(s[..|s| - 1]) else s
  }

  function Trim(s: string): string
  {
    TrimEnd(TrimStart(s))
  }

  lemma {:induction false} TrimStartBlank(s: string)
    ensures TrimStart(s) == [] <==> AllWhitespace(s)
  {
    if |s| > 0 && IsWhitespace(s[0]) {
      TrimStartBlank(s[1..]);
      assert forall k :: 1 <= k < |s| ==> s[k] == s[1..][k - 1];
    }
  }

  lemma {:induction false} TrimEndEmptyOnlyIfEmpty(s: string)
    ensures TrimEnd(s) == [] <==> AllWhitespace(s)
  {
    if |s| > 0 && IsWhitespace(s[|s| - 1]) {
      TrimEndEmptyOnlyIfEmpty(s[..|s| - 1]);
      assert forall k :: 0 <= k < |s| - 1 ==> s[k] == s[..|s| - 1][k];
    }
  }

  lemma {:induction false} TrimStartStopsAtText(s: string)
    ensures TrimStart(s) == [] || !IsWhitespace(TrimStart(s)[0])
  {
    if |s| > 0 && IsWhitespace(s[0]) {
      TrimStartStopsAtText(s[1..]);
    }
  }

  /** A string is blank for `!s.trim()` exactly when every character is whitespace. */
  lemma TrimBlank(s: string)
    ensures Trim(s) == [] <==> AllWhitespace(s)
  {
    TrimStartBlank(s);
    TrimStartStopsAtText(s);
    TrimEndEmptyOnlyIfEmpty(TrimStart(s));
  }

  /** One run matched by [^\s@]+. */
  predicate IsPart(s: string)
  {
    |s| > 0 && forall k :: 0 <= k < |s| ==> !IsWhitespace(s[k]) && s[k] != '@'
  }

  /** What the regex means: the whole string splits as part '@' part '.' part. */
  ghost predicate MatchesEmailPattern(s: string)
  {
    exists i, j :: 0 < i && i + 1 < j < |s| - 1 && s[i] == '@' && s[j] == '.'
                   && IsPart(s[..i]) && IsPart(s[i + 1..j]) && IsPart(s[j + 1..])
  }

  /** The first index of c in s, or -1. */
  function IndexOf(s: string, c: char): (r: int)
    ensures -1 <= r < |s|
    ensures r == -1 ==> forall k :: 0 <= k < |s| ==> s[k] != c
    ensures r >= 0 ==> s[r] == c && forall k :: 0 <= k < r ==> s[k] != c
  {
    if |s| == 0 then -1
    else if s[0] == c then 0
    else
      var r := IndexOf(s[1..], c);
      assert forall k :: 1 <= k < |s| ==> s[k] == s[1..][k - 1];
      if r == -1 then -1 else r + 1
  }

  /** A '.' that is neither the first nor the last character. */
  predicate HasInnerDot(r: string)
  {
    exists k :: 1 <= k < |r| - 1 && r[k] == '.'
  }

  /** The regex test as a direct check: no whitespace, one '@' that is not the
      first character, and after it a '.' that is neither first nor last. */
  function EmailRegexTest(s: string): bool
  {
    var at := IndexOf(s, '@');
    (forall k :: 0 <= k < |s| ==> !IsWhitespace(s[k]))
    && at > 0 && IndexOf(s[at + 1..], '@') == -1 && HasInnerDot(s[at + 1..])
  }

  predicate PartChar(c: char)
  {
    !IsWhitespace(c) && c != '@'
  }

  lemma SliceIsPart(s: string, a: nat, b: nat)
    requires a < b <= |s|
    requires forall m :: a <= m < b ==> PartChar(s[m])
    ensures IsPart(s[a..b])
  {
    assert forall m :: 0 <= m < b - a ==> s[a..b][m] == s[a + m];
  }

  lemma PartChars(s: string, a: nat, b: nat)
    requires a < b <= |s|
    requires IsPart(s[a..b])
    ensures forall m :: a <= m < b ==> PartChar(s[m])
  {
    forall m | a <= m < b
      ensures PartChar(s[m])
    {
      assert s[m] == s[a..b][m - a];
    }
  }

  lemma RegexTestMatches(s: string)
    requires EmailRegexTest(s)
    ensures MatchesEmailPattern(s)
  {
    var at := IndexOf(s, '@');
    var r := s[at + 1..];
    assert forall m :: at < m < |s| ==> s[m] == r[m - at - 1];
    assert forall m :: 0 <= m < |s| ==> PartChar(s[m]) || m == at;
    var k :| 1 <= k < |r| - 1 && r[k] == '.';
    var j := at + 1 + k;
    SliceIsPart(s, 0, at);
    SliceIsPart(s, at + 1, j);
    SliceIsPart(s, j + 1, |s|);
    assert s[..at] == s[0..at];
    assert s[j + 1..] == s[j + 1..|s|];
  }

  /** The characters of the three parts, seen in the whole string. */
  lemma SplitChars(s: string, i: nat, j: nat)
    requires 0 < i && i + 1 < j < |s| - 1
    requires IsPart(s[..i]) && IsPart(s[i + 1..j]) && IsPart(s[j + 1..])
    ensures forall m :: 0 <= m < |s| && m != i && m != j ==> PartChar(s[m])
  {
    assert s[..i] == s[0..i];
    assert s[j + 1..] == s[j + 1..|s|];
    PartChars(s, 0, i);
    PartChars(s, i + 1, j);
    PartChars(s, j + 1, |s|);
  }

  lemma SplitPassesTest(s: string, i: nat, j: nat)
    requires 0 < i && i + 1 < j < |s| - 1 && s[i] == '@' && s[j] == '.'
    requires forall m :: 0 <= m < |s| && m != i && m != j ==> PartChar(s[m])
    ensures EmailRegexTest(s)
  {
    var at := IndexOf(s, '@');
    assert at == i by {
      assert at != -1 by { assert s[i] == '@'; }
    }
    forall m | 0 <= m < |s|
      ensures !IsWhitespace(s[m])
    {
      if m != i && m != j { assert PartChar(s[m]); }
    }
    var r := s[i + 1..];
    forall m | 0 <= m < |r|
      ensures r[m] != '@'
    {
      assert r[m] == s[i + 1 + m];
      if i + 1 + m != j { assert PartChar(s[i + 1 + m]); }
    }
    assert r[j - i - 1] == '.';
  }

  lemma MatchesRegexTest(s: string)
    requires MatchesEmailPattern(s)
    ensures EmailRegexTest(s)
  {
    var i, j :| 0 < i && i + 1 < j < |s| - 1 && s[i] == '@' && s[j] == '.'
                && IsPart(s[..i]) && IsPart(s[i + 1..j]) && IsPart(s[j + 1..]);
    SplitChars(s, i, j);
    SplitPassesTest(s, i, j);
  }

  /** The direct check accepts exactly the strings the regex matches. */
  lemma EmailRegexTestCorrect(s: string)
    ensures EmailRegexTest(s) <==> MatchesEmailPattern(s)
  {
    if EmailRegexTest(s) {
      RegexTestMatches(s);
    }
    if MatchesEmailPattern(s) {
      MatchesRegexTest(s);
    }
  }

  datatype FormError = MissingParticipantId | MissingEmail | InvalidEmail

  /** The form's outcome: on acceptance the values as entered (untrimmed). */
  datatype FormResult =
    | Accepted(participantId: string, participantEmail: string, session: string)
    | Rejected(error: FormError)

  /** handleParticipantForm's checks, in the order the code makes them. */
  function ValidateParticipantForm(participantId: string, participantEmail: string, session: string)
    : (r: FormResult)
    ensures r.Accepted? <==> !AllWhitespace(participantId) && !AllWhitespace(participantEmail)
                             && MatchesEmailPattern(participantEmail)
    ensures r.Accepted? ==> r == Accepted(participantId, participantEmail, session)
    ensures r == Rejected(MissingParticipantId) <==> AllWhitespace(participantId)
    ensures r == Rejected(MissingEmail) <==> !AllWhitespace(participantId) && AllWhitespace(participantEmail)
  {
    TrimBlank(participantId);
    TrimBlank(participantEmail);
    EmailRegexTestCorrect(participantEmail);
    if Trim(participantId) == "" then Rejected(MissingParticipantId)
    else if Trim(participantEmail) == "" then Rejected(MissingEmail)
    else if !EmailRegexTest(participantEmail) then Rejected(InvalidEmail)
    else Accepted(participantId, participantEmail, session)
  }

  /** The regex is applied to the untrimmed email, so an accepted email never
      carries surrounding (or any) whitespace. */
  lemma AcceptedEmailHasNoWhitespace(participantId: string, participantEmail: string, session: string)
    requires ValidateParticipantForm(participantId, participantEmail, session).Accepted?
    ensures forall k :: 0 <= k < |participantEmail| ==> !IsWhitespace(participantEmail[k])
  {
    EmailRegexTestCorrect(participantEmail);
  }
}
