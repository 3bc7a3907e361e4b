/** The rooms site's `validateForm(formType)` (rooms/static/js/script.js):
    the registration branch runs the registration form's guards, the
    sign-in branch checks only the email and the password length, and any
    other form type passes. The result is the failing guard, None for `true`. */
module RoomsForm {
  import opened Common
  import opened FormRules
  import RegisterForm

  /** `validateForm(formType)` (lines 3-75). */
  function ValidateForm(formType: string, f: Fields): (r: Option<Check>)
    ensures formType == "register" ==> (r.None? <==> forall c :: Passes(f, c))
    ensures formType == "register" && r.Some? ==> (!Passes(f, r.value) &&
      forall c :: Rank(c) < Rank(r.value) ==> Passes(f, c))
    ensures formType == "sign" ==> (r.None? <==> EmailOk(f.email) && JsLength(f.password) >= 6)
    ensures formType == "sign" && r.Some? ==> (r.value == EmailFormat <==> !EmailOk(f.email))
    ensures formType == "sign" && r.Some? ==> r.value in {EmailFormat, PasswordLength}
    ensures formType != "register" && formType != "sign" ==> r.None?
  {
    if formType == "register" then RegisterForm.ValidateForm(f)
    else if formType == "sign" then
      if !EmailOk(f.email) then Some(EmailFormat)
      else if JsLength(f.password) < 6 then Some(PasswordLength)
      else None
    else None
  }

  /** Sign-in reads only the email and the password. */
  lemma SignReadsEmailAndPassword(f: Fields, g: Fields)
    requires f.email == g.email && f.password == g.password
    ensures ValidateForm("sign", f) == ValidateForm("sign", g)
  {
  }

  /** Every registration form that passes also passes sign-in. */
  lemma RegisteredFormSigns(f: Fields)
    requires ValidateForm("register", f).None?
    ensures ValidateForm("sign", f).None?
  {
  }
}
