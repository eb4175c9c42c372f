/** The reset-password request schema: a non-empty token and a password that
    passes the strength regex `^(?=.*\d)(?=.*[a-z])(?=.*[A-Z])(?=.*[a-zA-Z]).{8,}$`
    with the flags `g` and `m`. */
module PasswordRules {
  import opened Common

  const TokenRequiredMsg := "Reset Password Token is required"
  const StrengthMsg := "Password must have at least 8 characters.\nMust contain at least 1 uppercase letter, 1 lowercase letter, and 1 number.\nCan contain special characters"
  /** The message of a missing required field. */
  const RequiredMsg := "Required"

  /** The characters `.` does not match and `^`/`$` match beside under `m`. */
  predicate IsLineTerminator(c: char) {
    c == '\n' || c == '\r' || c == '\U{2028}' || c == '\U{2029}'
  }

  predicate IsDigit(c: char) { '0' <= c <= '9' }
  predicate IsLower(c: char) { 'a' <= c <= 'z' }
  predicate IsUpper(c: char) { 'A' <= c <= 'Z' }

  predicate NoTerminator(l: string) {
    forall j :: 0 <= j < |l| ==> !IsLineTerminator(l[j])
  }

  /** The position of the first line terminator, or `|p|`. */
  function FirstTerminator(p: string): (i: nat)
    ensures i <= |p|
    ensures forall j :: 0 <= j < i ==> !IsLineTerminator(p[j])
    ensures i < |p| ==> IsLineTerminator(p[i])
  {
    if p == [] || IsLineTerminator(p[0]) then 0 else 1 + FirstTerminator(p[1..])
  }

  predicate HasDigit(l: string) { exists j :: 0 <= j < |l| && IsDigit(l[j]) }
  predicate HasLower(l: string) { exists j :: 0 <= j < |l| && IsLower(l[j]) }
  predicate HasUpper(l: string) { exists j :: 0 <= j < |l| && IsUpper(l[j]) }

  /** The number of UTF-16 code units of `s`, its JavaScript `length`: a
      character beyond U+FFFF takes a surrogate pair. */
  function Utf16Length(s: string): (n: nat)
    ensures |s| <= n <= 2 * |s|
  {
    if s == [] then 0 else (if s[0] > '\U{FFFF}' then 2 else 1) + Utf16Length(s[1..])
  }

  lemma {:induction false} Utf16LengthAppend(a: string, b: string)
    ensures Utf16Length(a + b) == Utf16Length(a) + Utf16Length(b)
  {
    if a != [] {
      assert (a + b)[0] == a[0];
      assert (a + b)[1..] == a[1..] + b;
      Utf16LengthAppend(a[1..], b);
    } else {
      assert a + b == b;
    }
  }

  /** A line that the pattern matches from `^` to `$`: at least 8 code units
      (`.{8,}` without the `u` flag matches one UTF-16 code unit per `.`), with
      a digit, a lower-case and an upper-case letter somewhere among them (the
      look-aheads, which cannot look past the line's end). */
  predicate StrongLine(l: string) {
    Utf16Length(l) >= 8 && HasDigit(l) && HasLower(l) && HasUpper(l)
  }

  /** `regex.test(password)`: under `m` the pattern matches when some line of
      the password (a stretch between line terminators) matches it. */
  predicate Strong(p: string)
    decreases |p|
  {
    var i := FirstTerminator(p);
    StrongLine(p[..i]) || (i < |p| && Strong(p[i + 1..]))
  }

  /** The error messages of `resetPasswordValidator.safeParse({password, token})`,
      in the schema's field order. `password` is absent when the body has none. */
  function ValidateReset(token: string, password: Option<string>): (errs: seq<string>)
    ensures errs == [] <==> |token| >= 1 && password.Some? && Strong(password.value)
    ensures |token| == 0 <==> TokenRequiredMsg in errs
    ensures password.Some? ==> (!Strong(password.value) <==> StrengthMsg in errs)
    ensures |errs| <= 2
  {
    (if |token| < 1 then [TokenRequiredMsg] else [])
    + (if password.None? then [RequiredMsg]
       else if !Strong(password.value) then [StrengthMsg]
       else [])
  }

  /** For a password on one line the rule is: at least 8 UTF-16 code units,
      with a digit, a lower-case letter and an upper-case letter; every other
      character, special characters included, is allowed. */
  lemma SingleLineStrength(p: string)
    requires NoTerminator(p)
    ensures Strong(p) <==> Utf16Length(p) >= 8 && HasDigit(p) && HasLower(p) && HasUpper(p)
  {
    assert FirstTerminator(p) == |p|;
    assert p[..|p|] == p;
  }

  /** A line keeps matching when characters are added to its end. */
  lemma StrongLineExtends(a: string, b: string)
    requires StrongLine(a)
    requires |a| <= |b| && b[..|a|] == a
    ensures StrongLine(b)
  {
    var d :| 0 <= d < |a| && IsDigit(a[d]);
    var lo :| 0 <= lo < |a| && IsLower(a[lo]);
    var up :| 0 <= up < |a| && IsUpper(a[up]);
    assert b[d] == a[d] && b[lo] == a[lo] && b[up] == a[up];
    assert b == a + b[|a|..];
    Utf16LengthAppend(a, b[|a|..]);
  }

  /** A strong password stays strong when characters are added to its end:
      the rule sets no upper bound on the length. */
  lemma {:induction false} StrongExtends(p: string, extra: string)
    requires Strong(p)
    ensures Strong(p + extra)
    decreases |p|
  {
    var i := FirstTerminator(p);
    var q := p + extra;
    var j := FirstTerminator(q);
    assert forall t :: 0 <= t < |p| ==> q[t] == p[t];
    if i == |p| {
      assert j >= |p|;
      assert q[..j][..|p|] == p[..i];
      StrongLineExtends(p[..i], q[..j]);
    } else {
      assert j == i;
      assert q[..i] == p[..i];
      if !StrongLine(p[..i]) {
        assert q[i + 1..] == p[i + 1..] + extra;
        StrongExtends(p[i + 1..], extra);
      }
    }
  }

  /** The length is counted in UTF-16 code units: "Ab1" and three emoji (six
      characters, nine code units) are accepted. */
  lemma AcceptedAstralExample()
    ensures Strong("Ab1\U{1F600}\U{1F600}\U{1F600}")
  {
    var p := "Ab1\U{1F600}\U{1F600}\U{1F600}";
    assert NoTerminator(p);
    assert IsDigit(p[2]) && IsLower(p[1]) && IsUpper(p[0]);
    assert p[1..][1..][1..][1..][1..][1..] == [];
    assert Utf16Length(p) == 9;
    SingleLineStrength(p);
  }
}
