/** The registration validators: the password rule and the e-mail shape. */
module Credentials {
  import opened Wrappers
  import opened Text

  predicate IsAsciiUpper(c: char) { 'A' <= c <= 'Z' }
  predicate IsAsciiLower(c: char) { 'a' <= c <= 'z' }

  /** `re.search(r"[A-Z]", s)`: the string has an ASCII capital letter. */
  function HasUpper(s: string): (b: bool)
    ensures b <==> exists i :: 0 <= i < |s| && IsAsciiUpper(s[i])
  {
    if s == [] then false
    else if IsAsciiUpper(s[0]) then true
    else
      assert forall i :: 1 <= i < |s| ==> s[i] == s[1..][i - 1];
      HasUpper(s[1..])
  }

  /** `re.search(r"[a-z]", s)`: the string has an ASCII small letter. */
  function HasLower(s: string): (b: bool)
    ensures b <==> exists i :: 0 <= i < |s| && IsAsciiLower(s[i])
  {
    if s == [] then false
    else if IsAsciiLower(s[0]) then true
    else
      assert forall i :: 1 <= i < |s| ==> s[i] == s[1..][i - 1];
      HasLower(s[1..])
  }

  /** Why a password is refused; each is a 400 response. */
  datatype PasswordProblem = BadLength | NoUppercase | NoLowercase

  /** The password rule, checked in this order: 8 to 20 characters, then an
      upper-case letter, then a lower-case letter. Digits are not required. */
  function ValidatePassword(pw: string): (r: Option<PasswordProblem>)
    ensures r.None? <==>
      && 8 <= |pw| <= 20
      && (exists i :: 0 <= i < |pw| && IsAsciiUpper(pw[i]))
      && (exists i :: 0 <= i < |pw| && IsAsciiLower(pw[i]))
    ensures r == Some(BadLength) <==> |pw| < 8 || |pw| > 20
    ensures r == Some(NoUppercase) <==>
      8 <= |pw| <= 20 && forall i :: 0 <= i < |pw| ==> !IsAsciiUpper(pw[i])
    ensures r == Some(NoLowercase) <==>
      && 8 <= |pw| <= 20
      && (exists i :: 0 <= i < |pw| && IsAsciiUpper(pw[i]))
      && forall i :: 0 <= i < |pw| ==> !IsAsciiLower(pw[i])
  {
    if |pw| < 8 || |pw| > 20 then Some(BadLength)
    else if !HasUpper(pw) then Some(NoUppercase)
    else if !HasLower(pw) then Some(NoLowercase)
    else None
  }

  /** Python's `\w` restricted to ASCII: letters, digits and underscore. */
  predicate IsWordChar(c: char) {
    'a' <= c <= 'z' || 'A' <= c <= 'Z' || '0' <= c <= '9' || c == '_'
  }

  /** The class `[\w.-]`. */
  predicate IsNameChar(c: char) { IsWordChar(c) || c == '.' || c == '-' }

  predicate AllWord(s: string) { forall i :: 0 <= i < |s| ==> IsWordChar(s[i]) }
  predicate AllName(s: string) { forall i :: 0 <= i < |s| ==> IsNameChar(s[i]) }

  /** `s` is local part, `@` at `at`, domain part, `.` at `dot`, word run. */
  predicate SplitsAt(s: string, at: int, dot: int) {
    && 0 < at && at + 1 < dot && dot + 1 < |s|
    && s[at] == '@' && s[dot] == '.'
    && AllName(s[..at]) && AllName(s[at + 1..dot]) && AllWord(s[dot + 1..])
  }

  /** The full-match pattern `^[\w.-]+@[\w.-]+\.\w+$` written out: a non-empty
      local part, `@`, a non-empty domain part, a dot, and a non-empty run of
      word characters that ends the string. */
  ghost predicate EmailPattern(s: string) {
    exists at, dot :: SplitsAt(s, at, dot)
  }

  /** The e-mail check as a scan: the first `@`, then the last dot after it,
      are the only places a match can split the string. */
  function ValidateEmail(email: string): (ok: bool)
    ensures ok <==> EmailPattern(email)
  {
    var at := IndexOf(email, '@');
    var dot := at + 1 + LastIndexOf(email[at + 1..], '.');
    assert EmailPattern(email) ==> SplitsAt(email, at, dot) by {
      if EmailPattern(email) {
        var a, b :| SplitsAt(email, a, b);
        SplitIsUnique(email, a, b);
      }
    }
    SplitsAt(email, at, dot)
  }

  /** A match splits the string at its first `@` and at the last dot after it. */
  lemma SplitIsUnique(s: string, at: int, dot: int)
    requires SplitsAt(s, at, dot)
    ensures IndexOf(s, '@') == at
    ensures at + 1 + LastIndexOf(s[at + 1..], '.') == dot
  {
    assert forall k :: 0 <= k < at ==> s[..at][k] == s[k];
    var d := s[at + 1..];
    var dd := dot - at - 1;
    assert d[dd] == '.';
    assert forall k :: dd < k < |d| ==> d[k] == s[dot + 1..][k - dd - 1];
  }
}
