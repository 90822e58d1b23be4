/**
 The two input validators of the login form, written as character-class
 predicates instead of regular expressions, and the username derivation of
 the signup request.

 PASSWORD_REGEX is `^[A-Za-z0-9!@#$%^&*-_,.]{8,}$`: inside the brackets the
 unescaped `*-_` is a RANGE, `*` (0x2A) through `_` (0x5F).
 EMAIL_REGEX is `^[A-Za-z0-9!#$%&'*+-/=?^_`{|}~]+@[A-Za-z.]{2,}\.[A-Za-z]{2,}$`:
 inside the first brackets `+-/` is a range, `+` (0x2B) through `/` (0x2F).
 */
module Validation {

  predicate IsLetter(c: char) {
    'A' <= c <= 'Z' || 'a' <= c <= 'z'
  }

  predicate IsDigit(c: char) {
    '0' <= c <= '9'
  }

  /** The bracket class of PASSWORD_REGEX. */
  predicate InPasswordClass(c: char) {
    IsLetter(c) || IsDigit(c) || c in "!@#$%^&,." || '*' <= c <= '_'
  }

  /** The bracket class of the local part of EMAIL_REGEX; it does not contain '@'. */
  predicate InLocalClass(c: char) {
    IsLetter(c) || IsDigit(c) || c in "!#$%&'*=?^_`{|}~" || '+' <= c <= '/'
  }

  /** The bracket class of the domain part of EMAIL_REGEX. */
  predicate InDomainClass(c: char) {
    IsLetter(c) || c == '.'
  }

  /**
   What the password class amounts to: every visible ASCII character except
   the nine listed. The range admits `: ; < = > ? [ \ ]` as well.
   */
  lemma PasswordClassIsVisibleAsciiButNine(c: char)
    ensures InPasswordClass(c) <==>
      '!' <= c <= '~' && c != '"' && c != '\'' && c != '(' && c != ')' && c != '`'
      && c != '{' && c != '|' && c != '}' && c != '~'
  {
  }

  /** What the local-part class amounts to: every visible ASCII character except the eleven listed. */
  lemma LocalClassIsVisibleAsciiButEleven(c: char)
    ensures InLocalClass(c) <==>
      '!' <= c <= '~' && c != '"' && c != '(' && c != ')' && c != ':' && c != ';' && c != '<'
      && c != '>' && c != '@' && c != '[' && c != '\\' && c != ']'
  {
  }

  /** The password rule: at least 8 characters, all in the password class. */
  predicate IsValidPassword(p: string) {
    |p| >= 8 && forall i :: 0 <= i < |p| ==> InPasswordClass(p[i])
  }

  /** `PASSWORD_REGEX.test`: one left-to-right scan, accepting exactly the valid passwords. */
  method TestPassword(p: string) returns (ok: bool)
    ensures ok <==> IsValidPassword(p)
    ensures ok ==> |p| >= 8
    ensures ok ==> forall i :: 0 <= i < |p| ==> '!' <= p[i] <= '~'
  {
    var i := 0;
    while i < |p|
      invariant 0 <= i <= |p|
      invariant forall j :: 0 <= j < i ==> InPasswordClass(p[j])
    {
      if !InPasswordClass(p[i]) {
        return false;
      }
      i := i + 1;
    }
    ok := |p| >= 8;
    forall j | 0 <= j < |p|
      ensures ok ==> '!' <= p[j] <= '~'
    {
      PasswordClassIsVisibleAsciiButNine(p[j]);
    }
  }

  predicate AllLocal(s: string) {
    forall i :: 0 <= i < |s| ==> InLocalClass(s[i])
  }

  predicate AllDomain(s: string) {
    forall i :: 0 <= i < |s| ==> InDomainClass(s[i])
  }

  predicate AllLetters(s: string) {
    forall i :: 0 <= i < |s| ==> IsLetter(s[i])
  }

  /**
   One way EMAIL_REGEX can match: '@' at `at` and the escaped '.' at `dot`,
   with a non-empty local part before `at`, at least two domain characters
   between, and at least two letters after `dot`.
   */
  predicate EmailSplit(s: string, at: nat, dot: nat) {
    && 0 < at && at + 3 <= dot && dot + 3 <= |s|
    && s[at] == '@' && s[dot] == '.'
    && AllLocal(s[..at]) && AllDomain(s[at + 1..dot]) && AllLetters(s[dot + 1..])
  }

  /** The regular expression's reading: SOME split of the text matches. */
  ghost predicate MatchesEmailRegex(s: string) {
    exists at: nat, dot: nat :: EmailSplit(s, at, dot)
  }

  /** The first index of `c` in `s`, or `|s|` when `c` does not occur. */
  function IndexOf(s: string, c: char): (i: nat)
    ensures i <= |s|
    ensures i < |s| ==> s[i] == c
    ensures forall j :: 0 <= j < i ==> s[j] != c
  {
    if |s| == 0 then 0
    else if s[0] == c then 0
    else 1 + IndexOf(s[1..], c)
  }

  /** The last index of `c` in `s`, or -1 when `c` does not occur. */
  function LastIndexOf(s: string, c: char): (i: int)
    ensures -1 <= i < |s|
    ensures 0 <= i ==> s[i] == c
    ensures forall j :: i < j < |s| ==> s[j] != c
  {
    if |s| == 0 then -1
    else if s[|s| - 1] == c then |s| - 1
    else LastIndexOf(s[..|s| - 1], c)
  }

  /**
   The domain after '@': the last '.' separates at least two domain
   characters from at least two letters. (The letters after the separating
   dot contain no dot, so only the last dot can separate.)
   */
  predicate IsValidDomain(d: string) {
    var dot := LastIndexOf(d, '.');
    2 <= dot && dot + 3 <= |d| && AllDomain(d[..dot]) && AllLetters(d[dot + 1..])
  }

  /**
   `EMAIL_REGEX.test`, deterministically: split at the first '@' (the local
   class excludes '@'), then check the domain.
   */
  predicate IsValidEmail(s: string) {
    var at := IndexOf(s, '@');
    0 < at < |s| && AllLocal(s[..at]) && IsValidDomain(s[at + 1..])
  }

  /** The deterministic test accepts exactly the texts the regular expression matches. */
  lemma {:induction false} ValidEmailIffRegexMatches(s: string)
    ensures IsValidEmail(s) <==> MatchesEmailRegex(s)
  {
    if IsValidEmail(s) {
      ValidEmailMatches(s);
    }
    if MatchesEmailRegex(s) {
      var at: nat, dot: nat :| EmailSplit(s, at, dot);
      SplitIsValidEmail(s, at, dot);
    }
  }

  /** The split the deterministic test finds is one the regular expression accepts. */
  lemma {:induction false} ValidEmailMatches(s: string)
    requires IsValidEmail(s)
    ensures EmailSplit(s, IndexOf(s, '@'), IndexOf(s, '@') + 1 + LastIndexOf(s[IndexOf(s, '@') + 1..], '.'))
  {
    var at := IndexOf(s, '@');
    var d := s[at + 1..];
    var k := LastIndexOf(d, '.');
    var dot := at + 1 + k;
    assert s[at + 1..dot] == d[..k];
    assert s[dot + 1..] == d[k + 1..];
  }

  /** Any split the regular expression accepts is the one the deterministic test finds. */
  lemma {:induction false} SplitIsValidEmail(s: string, at: nat, dot: nat)
    requires EmailSplit(s, at, dot)
    ensures IndexOf(s, '@') == at
    ensures LastIndexOf(s[at + 1..], '.') == dot - at - 1
    ensures IsValidEmail(s)
  {
    SplitAtIsFirst(s, at, dot);
    SplitDotIsLast(s, at, dot);
    var d := s[at + 1..];
    var k := dot - at - 1;
    assert d[..k] == s[at + 1..dot];
    assert d[k + 1..] == s[dot + 1..];
  }

  /** The local part has no '@', so the split's '@' is the first one. */
  lemma {:induction false} SplitAtIsFirst(s: string, at: nat, dot: nat)
    requires EmailSplit(s, at, dot)
    ensures IndexOf(s, '@') == at
  {
    assert !InLocalClass('@');
    assert forall j :: 0 <= j < at ==> s[..at][j] == s[j];
    FirstOccurrence(s, '@', at);
  }

  /** The top-level domain is letters only, so the split's '.' is the last one after '@'. */
  lemma {:induction false} SplitDotIsLast(s: string, at: nat, dot: nat)
    requires EmailSplit(s, at, dot)
    ensures LastIndexOf(s[at + 1..], '.') == dot - at - 1
  {
    var d := s[at + 1..];
    var k := dot - at - 1;
    assert d[k] == '.';
    assert forall j :: k < j < |d| ==> d[j] == s[dot + 1..][j - k - 1];
    LastOccurrence(d, '.', k);
  }

  /** IndexOf finds an occurrence with no earlier one. */
  lemma FirstOccurrence(s: string, c: char, i: nat)
    requires i < |s| && s[i] == c
    requires forall j :: 0 <= j < i ==> s[j] != c
    ensures IndexOf(s, c) == i
  {
  }

  /** LastIndexOf finds an occurrence with no later one. */
  lemma LastOccurrence(s: string, c: char, i: nat)
    requires i < |s| && s[i] == c
    requires forall j :: i < j < |s| ==> s[j] != c
    ensures LastIndexOf(s, c) == i
  {
  }

  /** An accepted email contains exactly one '@', the first one. */
  lemma {:induction false} ValidEmailHasOneAt(s: string)
    requires IsValidEmail(s)
    ensures IndexOf(s, '@') < |s|
    ensures forall j :: 0 <= j < |s| && s[j] == '@' ==> j == IndexOf(s, '@')
  {
    var at := IndexOf(s, '@');
    var d := s[at + 1..];
    var k := LastIndexOf(d, '.');
    assert forall i :: 0 <= i < k ==> d[..k][i] == d[i];
    assert forall i :: k < i < |d| ==> d[k + 1..][i - k - 1] == d[i];
    assert forall j :: at < j < |s| ==> s[j] == d[j - at - 1];
  }


  /**
   `email.split("@")[0]`: the text before the first '@', or all of it when
   there is none. The result is a prefix without '@', followed in `email` by
   '@' unless it is all of `email`.
   */
  function Username(email: string): (u: string)
    ensures u <= email
    ensures forall i :: 0 <= i < |u| ==> u[i] != '@'
    ensures |u| < |email| ==> email[|u|] == '@'
  {
    email[..IndexOf(email, '@')]
  }

  /**
   For an accepted email the username is non-empty, contains no '@', and the
   email is that username, '@', and a valid domain.
   */
  lemma UsernameOfValidEmail(email: string)
    requires IsValidEmail(email)
    ensures |Username(email)| > 0
    ensures '@' !in Username(email)
    ensures email == Username(email) + "@" + email[|Username(email)| + 1..]
    ensures IsValidDomain(email[|Username(email)| + 1..])
  {
  }

}
