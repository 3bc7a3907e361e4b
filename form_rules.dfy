/** Field rules shared by the two browser form validators
    (auth_reg/static/js/script.js and rooms/static/js/script.js): the field
    set of the registration form, the email pattern `^[^\s@]+@[^\s@]+\.[^\s@]+$`
    as a check on the string, and JavaScript's `length`, which counts UTF-16
    code units. */
module FormRules {
  import opened Common

  /** The registration form's fields, by element id. */
  datatype Fields = Fields(
    email: string, firstName: string, lastName: string, middleName: string,
    position: string, password: string, passwordConfirm: string)

  /** `[^\s@]+`: a non-empty run without whitespace and without `@`. */
  predicate Part(x: string) {
    x != [] && forall k :: 0 <= k < |x| ==> x[k] != '@' && !IsSpace(x[k])
  }

  /** The email regular expression, read as a decomposition of the string. */
  ghost predicate MatchesEmailPattern(s: string) {
    exists a, b, c :: Part(a) && Part(b) && Part(c) && s == a + "@" + b + "." + c
  }

  /** The index of the first `@`, if any. */
  function FirstAt(s: string): (r: Option<nat>)
    ensures r.None? <==> '@' !in s
    ensures r.Some? ==> r.value < |s| && s[r.value] == '@' && '@' !in s[..r.value]
  {
    if s == [] then None
    else if s[0] == '@' then Some(0)
    else
      var r := FirstAt(s[1..]);
      assert forall k :: 1 <= k < |s| ==> s[k] == s[1..][k - 1];
      if r.Some? then
        assert s[..r.value + 1] == [s[0]] + s[1..][..r.value];
        Some(r.value + 1)
      else None
  }

  predicate NoSpace(s: string) {
    forall k :: 0 <= k < |s| ==> !IsSpace(s[k])
  }

  /** A `.` with something on each side of it. */
  predicate InnerDot(d: string) {
    exists j :: 0 < j < |d| - 1 && d[j] == '.'
  }

  /** `emailRegex.test(value)`, written as the checks the pattern makes. */
  function EmailOk(s: string): bool {
    var at := FirstAt(s);
    NoSpace(s) && at.Some? && at.value > 0 && '@' !in s[at.value + 1..] && InnerDot(s[at.value + 1..])
  }

  lemma PartConcat(a: string, b: string)
    requires Part(a) && Part(b)
    ensures Part(a + "." + b)
  {
  }

  /** A string that passes the check splits as the pattern requires. */
  lemma EmailOkMatches(s: string)
    requires EmailOk(s)
    ensures MatchesEmailPattern(s)
  {
    var i := FirstAt(s).value;
    var d := s[i + 1..];
    var j :| 0 < j < |d| - 1 && d[j] == '.';
    LocalPart(s, i);
    DomainParts(s, i, j);
    var a, b, c := s[..i], d[..j], d[j + 1..];
    assert d == b + "." + c;
    assert s == a + "@" + b + "." + c by {
      assert s == s[..i] + [s[i]] + d;
    }
  }

  /** The text before the first `@` is a part. */
  lemma LocalPart(s: string, i: nat)
    requires 0 < i < |s| && NoSpace(s) && '@' !in s[..i]
    ensures Part(s[..i])
  {
    var a := s[..i];
    forall k | 0 <= k < |a| ensures a[k] != '@' && !IsSpace(a[k]) {
      assert a[k] == s[k] && a[k] in a;
    }
  }

  /** Around an inner dot of the text after the `@`, both sides are parts. */
  lemma DomainParts(s: string, i: nat, j: nat)
    requires i < |s| && NoSpace(s)
    requires '@' !in s[i + 1..] && 0 < j < |s[i + 1..]| - 1
    ensures Part(s[i + 1..][..j]) && Part(s[i + 1..][j + 1..])
  {
    var d := s[i + 1..];
    forall k | 0 <= k < |d| ensures d[k] != '@' && !IsSpace(d[k]) {
      assert d[k] == s[i + 1 + k] && d[k] in d;
    }
    var b, c := d[..j], d[j + 1..];
    forall k | 0 <= k < |b| ensures b[k] == d[k] {
    }
    forall k | 0 <= k < |c| ensures c[k] == d[j + 1 + k] {
    }
  }

  /** In `a@d` where `a` has no `@`, the first `@` is at `|a|`. */
  lemma FirstAtAfter(a: string, d: string)
    requires '@' !in a
    ensures FirstAt(a + ['@'] + d) == Some(|a|)
  {
    var s := a + ['@'] + d;
    var r := FirstAt(s);
    assert s[|a|] == '@';
    assert s[..|a|] == a;
  }

  /** A string the pattern matches passes the check. */
  lemma MatchesEmailOk(s: string)
    requires MatchesEmailPattern(s)
    ensures EmailOk(s)
  {
    var a, b, c :| Part(a) && Part(b) && Part(c) && s == a + "@" + b + "." + c;
    var d := b + "." + c;
    assert s == a + ['@'] + d;
    assert '@' !in a by {
      assert forall k :: 0 <= k < |a| ==> a[k] != '@';
    }
    FirstAtAfter(a, d);
    assert s[|a| + 1..] == d;
    assert d[|b|] == '.';
    PartConcat(b, c);
    assert '@' !in d by {
      assert forall k :: 0 <= k < |d| ==> d[k] != '@';
    }
    forall k | 0 <= k < |s| ensures !IsSpace(s[k]) {
      if k < |a| {
        assert s[k] == a[k];
      } else if k > |a| {
        assert s[k] == d[k - |a| - 1];
      }
    }
  }

  /** The check accepts exactly the strings the pattern matches. */
  lemma EmailOkIffPattern(s: string)
    ensures EmailOk(s) <==> MatchesEmailPattern(s)
  {
    if EmailOk(s) {
      EmailOkMatches(s);
    }
    if MatchesEmailPattern(s) {
      MatchesEmailOk(s);
    }
  }

  /** The guards of a `validateForm`, each with its `showError` text. */
  datatype Check = EmailFormat | FirstNameLength | LastNameLength | PositionLength | PasswordLength | PasswordMismatch

  function Message(c: Check): string {
    match c
    case EmailFormat => "Пожалуйста, введите корректный email адрес"
    case FirstNameLength => "Имя должно содержать минимум 2 символа"
    case LastNameLength => "Фамилия должна содержать минимум 2 символа"
    case PositionLength => "Должность должна содержать минимум 2 символа"
    case PasswordLength => "Пароль должен содержать минимум 6 символов"
    case PasswordMismatch => "Пароли не совпадают"
  }

  /** Whether the fields pass one guard. */
  predicate Passes(f: Fields, c: Check) {
    match c
    case EmailFormat => EmailOk(f.email)
    case FirstNameLength => TrimmedAtLeast(f.firstName, 2)
    case LastNameLength => TrimmedAtLeast(f.lastName, 2)
    case PositionLength => TrimmedAtLeast(f.position, 2)
    case PasswordLength => JsLength(f.password) >= 6
    case PasswordMismatch => f.password == f.passwordConfirm
  }

  /** The order in which the registration form runs its guards. */
  function Rank(c: Check): nat {
    match c
    case EmailFormat => 0
    case FirstNameLength => 1
    case LastNameLength => 2
    case PositionLength => 3
    case PasswordLength => 4
    case PasswordMismatch => 5
  }

  /** JavaScript's `length`: characters outside the Basic Multilingual Plane
      count twice. */
  function JsLength(s: string): (n: nat)
    ensures |s| <= n <= 2 * |s|
    ensures (forall k :: 0 <= k < |s| ==> s[k] as int <= 0xFFFF) ==> n == |s|
  {
    if s == [] then 0 else (if s[0] as int > 0xFFFF then 2 else 1) + JsLength(s[1..])
  }

  /** `value.trim().length >= n` */
  predicate TrimmedAtLeast(s: string, n: nat) {
    JsLength(Trim(s)) >= n
  }

  /** The trimmed-length rule accepts a field only if some non-space
      character is in it. */
  lemma TrimmedAtLeastNeedsText(s: string, n: nat)
    requires n > 0 && TrimmedAtLeast(s, n)
    ensures !AllSpace(s)
  {
    TrimEmptyIff(s);
  }
}
