/** The registration endpoint (auth_reg/main.py): FastAPI's check of the
    required form fields, then four guards in order,
    then a record without the password appended to the in-memory
    `users_db` with the next id. Every raised `HTTPException` is caught by
    the endpoint's own `except` and raised again as a 400 whose detail is
    the caught exception's string, `"400: "` followed by its detail. */
module Registration {
  import opened Common
  import opened FormRules

  const BadRequest: int := 400
  const PasswordMismatchDetail: string := "Пароли не совпадают"
  const ShortPasswordDetail: string := "Пароль должен содержать минимум 6 символов"
  const TakenEmailDetail: string := "Email уже зарегистрирован"

  /** The stored `user_record`: the password is not one of its fields. */
  datatype UserRecord = UserRecord(id: nat, email: string, firstName: string, lastName: string, middleName: string, position: string)

  /** `Unprocessable` is FastAPI's 422 answer naming the missing fields; it
      comes before the handler body runs. */
  datatype Response = Created(user: UserRecord) | Rejected(status: int, detail: string) | Unprocessable(missing: seq<string>)

  /** The seven `Form(...)` parameters of lines 38-44, in declaration order,
      with their values. */
  function FormValues(f: Fields): seq<(string, string)> {
    [("email", f.email), ("first_name", f.firstName), ("last_name", f.lastName), ("middle_name", f.middleName),
     ("password", f.password), ("password_confirm", f.passwordConfirm), ("position", f.position)]
  }

  /** Every required form field holds a non-empty value: FastAPI treats an
      empty value of a required form field as missing. */
  predicate Filled(f: Fields) {
    f.email != [] && f.firstName != [] && f.lastName != [] && f.middleName != [] &&
    f.position != [] && f.password != [] && f.passwordConfirm != []
  }

  /** The names whose values are empty, in the order given. */
  function EmptyNames(fs: seq<(string, string)>): (r: seq<string>)
    ensures |r| <= |fs|
    ensures forall n :: n in r <==> exists i :: 0 <= i < |fs| && fs[i].0 == n && fs[i].1 == []
  {
    if fs == [] then []
    else
      var rest := EmptyNames(fs[1..]);
      assert forall i :: 1 <= i < |fs| ==> fs[i] == fs[1..][i - 1];
      (if fs[0].1 == [] then [fs[0].0] else []) + rest
  }

  /** The fields FastAPI reports as missing, in declaration order. */
  function MissingFields(f: Fields): (r: seq<string>)
    ensures r == [] <==> Filled(f)
    ensures f.middleName == [] ==> "middle_name" in r
  {
    var fs := FormValues(f);
    var r := EmptyNames(fs);
    assert fs[0] == ("email", f.email) && fs[1] == ("first_name", f.firstName) && fs[2] == ("last_name", f.lastName);
    assert fs[3] == ("middle_name", f.middleName) && fs[4] == ("password", f.password);
    assert fs[5] == ("password_confirm", f.passwordConfirm) && fs[6] == ("position", f.position);
    assert forall i :: 0 <= i < |fs| && fs[i].1 == [] ==> fs[i].0 in r;
    assert r != [] ==> r[0] in r;
    r
  }

  function BadEmailDetail(email: string): string {
    "Неверный формат email " + email
  }

  /** `str(e)` of an `HTTPException` with status 400. */
  function Rewrapped(detail: string): string {
    "400: " + detail
  }

  predicate EmailTaken(users: seq<UserRecord>, email: string) {
    exists u :: u in users && u.email == email
  }

  /** `users_db` as the endpoint keeps it: ids 1..n in order, emails unique. */
  ghost predicate Valid(users: seq<UserRecord>) {
    (forall i :: 0 <= i < |users| ==> users[i].id == i + 1) &&
    forall i, j :: 0 <= i < j < |users| ==> users[i].email != users[j].email
  }

  /** `register_user` (lines 36-84) on the table `users`, after FastAPI's
      check of the required form fields. */
  function Decide(users: seq<UserRecord>, f: Fields): (r: Response)
    ensures r.Unprocessable? <==> !Filled(f)
    ensures r.Unprocessable? ==> r.missing != [] && forall n :: n in r.missing ==> n in ["email", "first_name", "last_name", "middle_name", "password", "password_confirm", "position"]
    ensures r.Rejected? ==> r.status == BadRequest
    ensures r.Created? <==> (Filled(f) && '@' in f.email && f.password == f.passwordConfirm && |f.password| >= 6 && !EmailTaken(users, f.email))
    ensures r.Created? ==> r.user == UserRecord(|users| + 1, f.email, f.firstName, f.lastName, f.middleName, f.position)
    ensures Filled(f) && '@' !in f.email ==> r == Rejected(BadRequest, Rewrapped(BadEmailDetail(f.email)))
    ensures Filled(f) && '@' in f.email && f.password != f.passwordConfirm ==> r == Rejected(BadRequest, Rewrapped(PasswordMismatchDetail))
    ensures Filled(f) && '@' in f.email && f.password == f.passwordConfirm && |f.password| < 6 ==>
      r == Rejected(BadRequest, Rewrapped(ShortPasswordDetail))
    ensures Filled(f) && '@' in f.email && f.password == f.passwordConfirm && |f.password| >= 6 && EmailTaken(users, f.email) ==>
      r == Rejected(BadRequest, Rewrapped(TakenEmailDetail))
  {
    if !Filled(f) then Unprocessable(MissingFields(f))
    else if '@' !in f.email then Rejected(BadRequest, Rewrapped(BadEmailDetail(f.email)))
    else if f.password != f.passwordConfirm then Rejected(BadRequest, Rewrapped(PasswordMismatchDetail))
    else if |f.password| < 6 then Rejected(BadRequest, Rewrapped(ShortPasswordDetail))
    else if EmailTaken(users, f.email) then Rejected(BadRequest, Rewrapped(TakenEmailDetail))
    else Created(UserRecord(|users| + 1, f.email, f.firstName, f.lastName, f.middleName, f.position))
  }

  /** What a call leaves in `users_db`. */
  function After(users: seq<UserRecord>, f: Fields): seq<UserRecord> {
    var r := Decide(users, f);
    if r.Created? then users + [r.user] else users
  }

  /** Registration keeps ids 1..n and emails unique, and keeps every earlier record. */
  lemma RegisterKeepsValid(users: seq<UserRecord>, f: Fields)
    requires Valid(users)
    ensures Valid(After(users, f))
    ensures |After(users, f)| <= |users| + 1 && After(users, f)[..|users|] == users
  {
    var r := Decide(users, f);
    if r.Created? {
      var u := users + [r.user];
      forall i, j | 0 <= i < j < |u| ensures u[i].email != u[j].email {
        if j == |users| {
          assert u[i] in users;
        }
      }
    }
  }

  /** Once an email is registered, every later attempt with it is rejected. */
  lemma {:induction false} RegisteredEmailIsRejected(users: seq<UserRecord>, f: Fields, g: Fields)
    requires Decide(users, f).Created? && g.email == f.email
    ensures !Decide(After(users, f), g).Created?
    ensures Filled(g) ==> Decide(After(users, f), g).Rejected?
  {
    assert Decide(users, f).user in After(users, f);
  }

  class Registry {
    /** `users_db`. */
    var users: seq<UserRecord>

    constructor ()
      ensures users == [] && Valid(users)
    {
      users := [];
    }

    /** `register_user`, appending on success. */
    method Register(f: Fields) returns (r: Response)
      requires Valid(users)
      modifies this
      ensures Valid(users)
      ensures r == Decide(old(users), f) && users == After(old(users), f)
    {
      RegisterKeepsValid(users, f);
      r := Decide(users, f);
      if r.Created? {
        users := users + [r.user];
      }
    }
  }
}
