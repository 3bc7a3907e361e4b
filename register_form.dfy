/** The registration form's `validateForm` (auth_reg/static/js/script.js):
    six guards in a fixed order, the first failing one shows its message
    and makes the function return false. The result is the failing guard,
    None for `true`. */
module RegisterForm {
  import opened Common
  import opened FormRules

  /** `validateForm()` (lines 2-51). */
  function ValidateForm(f: Fields): (r: Option<Check>)
    ensures r.None? <==> forall c :: Passes(f, c)
    ensures r.Some? ==> !Passes(f, r.value) && forall c :: Rank(c) < Rank(r.value) ==> Passes(f, c)
  {
    assert Passes(f, EmailFormat) == EmailOk(f.email);
    assert Passes(f, FirstNameLength) == TrimmedAtLeast(f.firstName, 2);
    assert Passes(f, LastNameLength) == TrimmedAtLeast(f.lastName, 2);
    assert Passes(f, PositionLength) == TrimmedAtLeast(f.position, 2);
    assert Passes(f, PasswordLength) == (JsLength(f.password) >= 6);
    assert Passes(f, PasswordMismatch) == (f.password == f.passwordConfirm);
    if !EmailOk(f.email) then Some(EmailFormat)
    else if !TrimmedAtLeast(f.firstName, 2) then Some(FirstNameLength)
    else if !TrimmedAtLeast(f.lastName, 2) then Some(LastNameLength)
    else if !TrimmedAtLeast(f.position, 2) then Some(PositionLength)
    else if JsLength(f.password) < 6 then Some(PasswordLength)
    else if f.password != f.passwordConfirm then Some(PasswordMismatch)
    else None
  }

  /** The patronymic field is never read. */
  lemma MiddleNameNeverChecked(f: Fields, m: string)
    ensures ValidateForm(f.(middleName := m)) == ValidateForm(f)
  {
  }

  /** A form that passes holds a pattern-shaped email, names that are not
      blank, and a confirmed password of at least six UTF-16 units. */
  lemma AcceptedForm(f: Fields)
    requires ValidateForm(f).None?
    ensures MatchesEmailPattern(f.email)
    ensures !AllSpace(f.firstName) && !AllSpace(f.lastName) && !AllSpace(f.position)
    ensures JsLength(f.password) >= 6 && f.passwordConfirm == f.password
  {
    assert Passes(f, EmailFormat) && Passes(f, FirstNameLength) && Passes(f, LastNameLength) && Passes(f, PositionLength);
    assert Passes(f, PasswordLength) && Passes(f, PasswordMismatch);
    EmailOkIffPattern(f.email);
    TrimmedAtLeastNeedsText(f.firstName, 2);
    TrimmedAtLeastNeedsText(f.lastName, 2);
    TrimmedAtLeastNeedsText(f.position, 2);
  }
}
