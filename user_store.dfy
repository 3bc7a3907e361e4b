/** The auth service's database layer (auth_reg/database.py): the
    `_initialized` flag of `DatabaseManager` around the ORM's connection
    calls, and `UserRepository` over an abstract `users` table kept in id
    order. Each ORM call is an atomic step whose success is a parameter;
    the calls made are logged in `log`. */
module UserStore {
  import opened Common

  const AdminEmail: string := "Admin@gmail.com"
  const EmailNotFound: string := "Email не найден"
  const WrongPassword: string := "Не верный пароль"
  const UserFound: string := "Пользователь найден"

  /** A library call that `DatabaseManager` makes. */
  datatype DbCall = Init | GenerateSchemas | CloseConnections

  class DatabaseManager {
    var initialized: bool
    var log: seq<DbCall>

    constructor ()
      ensures !initialized && log == []
    {
      initialized := false;
      log := [];
    }

    /** `init_db` (lines 25-43): when already initialized only the schemas
        are generated again; otherwise `Tortoise.init` and then
        `generate_schemas` run, and the flag is set once both succeed.
        `initOk` and `schemaOk` say whether each awaited call succeeds. */
    method InitDb(initOk: bool, schemaOk: bool) returns (raised: bool)
      modifies this
      ensures raised <==> if old(initialized) then !schemaOk else !initOk || !schemaOk
      ensures old(initialized) ==> initialized && log == old(log) + [GenerateSchemas]
      ensures !old(initialized) ==> (initialized == !raised &&
        log == old(log) + [Init] + if initOk then [GenerateSchemas] else [])
    {
      if initialized {
        log := log + [GenerateSchemas];
        return !schemaOk;
      }
      log := log + [Init];
      if !initOk {
        return true;
      }
      log := log + [GenerateSchemas];
      if !schemaOk {
        return true;
      }
      initialized := true;
      raised := false;
    }

    /** `close_db` (lines 45-50): nothing unless initialized; the flag is
        cleared after the connections close. */
    method CloseDb(ok: bool) returns (raised: bool)
      modifies this
      ensures !old(initialized) ==> !raised && unchanged(this)
      ensures old(initialized) ==> raised == !ok && initialized == !ok && log == old(log) + [CloseConnections]
    {
      if !initialized {
        return false;
      }
      log := log + [CloseConnections];
      if !ok {
        return true;
      }
      initialized := false;
      raised := false;
    }

    /** `session` (lines 52-62): `init_db`, the body unless `init_db`
        raised, and `close_db` in every case. `initOk` and `schemaOk` are
        the outcomes of the two calls of `init_db`, `bodyOk` and `closeOk`
        those of the body and of `close_db`. */
    method Session(initOk: bool, schemaOk: bool, bodyOk: bool, closeOk: bool) returns (raised: bool, bodyRan: bool)
      modifies this
      ensures bodyRan <==> if old(initialized) then schemaOk else initOk && schemaOk
      ensures raised <==> !bodyRan || !bodyOk || (initialized && !closeOk)
      ensures closeOk ==> !initialized
      ensures !closeOk ==> (initialized <==> old(initialized) || bodyRan)
      ensures log == old(log) +
        (if old(initialized) then [GenerateSchemas] else [Init] + if initOk then [GenerateSchemas] else []) +
        (if old(initialized) || bodyRan then [CloseConnections] else [])
    {
      var initRaised := InitDb(initOk, schemaOk);
      bodyRan := !initRaised;
      var closeRaised := CloseDb(closeOk);
      raised := initRaised || !bodyOk || closeRaised;
    }
  }

  /** A `User` row. */
  datatype User = User(
    id: nat, email: Option<string>, firstName: Option<string>, lastName: Option<string>,
    middleName: Option<string>, position: Option<string>, password: Option<string>,
    canConnect: bool, canCreate: bool, isAdmin: bool)

  /** The fields an `update_user` call names; None leaves a field as it is. */
  datatype Patch = Patch(
    email: Option<Option<string>>, firstName: Option<Option<string>>, lastName: Option<Option<string>>,
    middleName: Option<Option<string>>, position: Option<Option<string>>, password: Option<Option<string>>,
    canConnect: Option<bool>, canCreate: Option<bool>, isAdmin: Option<bool>)

  function Pick<T>(given: Option<T>, keep: T): T {
    if given.Some? then given.value else keep
  }

  /** `update_from_dict(kwargs)` on one row. */
  function Patched(u: User, p: Patch): (r: User)
    ensures r.id == u.id
    ensures p.email.Some? ==> r.email == p.email.value
    ensures p.email.None? ==> r.email == u.email
    ensures p.firstName.Some? ==> r.firstName == p.firstName.value
    ensures p.firstName.None? ==> r.firstName == u.firstName
    ensures p.lastName.Some? ==> r.lastName == p.lastName.value
    ensures p.lastName.None? ==> r.lastName == u.lastName
    ensures p.middleName.Some? ==> r.middleName == p.middleName.value
    ensures p.middleName.None? ==> r.middleName == u.middleName
    ensures p.position.Some? ==> r.position == p.position.value
    ensures p.position.None? ==> r.position == u.position
    ensures p.password.Some? ==> r.password == p.password.value
    ensures p.password.None? ==> r.password == u.password
    ensures p.canConnect.Some? ==> r.canConnect == p.canConnect.value
    ensures p.canConnect.None? ==> r.canConnect == u.canConnect
    ensures p.canCreate.Some? ==> r.canCreate == p.canCreate.value
    ensures p.canCreate.None? ==> r.canCreate == u.canCreate
    ensures p.isAdmin.Some? ==> r.isAdmin == p.isAdmin.value
    ensures p.isAdmin.None? ==> r.isAdmin == u.isAdmin
    ensures p == Patch(None, None, None, None, None, None, None, None, None) ==> r == u
  {
    User(u.id, Pick(p.email, u.email), Pick(p.firstName, u.firstName), Pick(p.lastName, u.lastName),
      Pick(p.middleName, u.middleName), Pick(p.position, u.position), Pick(p.password, u.password),
      Pick(p.canConnect, u.canConnect), Pick(p.canCreate, u.canCreate), Pick(p.isAdmin, u.isAdmin))
  }

  /** A value of the dictionary `to_dict` builds. */
  datatype Value = IntValue(i: int) | TextValue(s: Option<string>) | BoolValue(b: bool)

  const DictKeys: set<string> := {"id", "email", "first_name", "last_name", "middle_name", "position",
    "is_connecting_to_rooms", "is_creating_rooms", "is_admin"}

  /** `to_dict` (lines 125-137): every column but the password. */
  function ToDict(u: User): (d: map<string, Value>)
    ensures d.Keys == DictKeys && "password" !in d
    ensures d["id"] == IntValue(u.id) && d["email"] == TextValue(u.email) && d["is_admin"] == BoolValue(u.isAdmin)
  {
    map["id" := IntValue(u.id), "email" := TextValue(u.email), "first_name" := TextValue(u.firstName),
      "last_name" := TextValue(u.lastName), "middle_name" := TextValue(u.middleName),
      "position" := TextValue(u.position), "is_connecting_to_rooms" := BoolValue(u.canConnect),
      "is_creating_rooms" := BoolValue(u.canCreate), "is_admin" := BoolValue(u.isAdmin)]
  }

  /** The dictionary does not depend on the password. */
  lemma ToDictHidesPassword(u: User, pw: Option<string>)
    ensures ToDict(u.(password := pw)) == ToDict(u)
  {
  }

  /** `.filter(...).first()`: the first row, in table order, that `keep` accepts. */
  function First(users: seq<User>, keep: User -> bool): (r: Option<User>)
    ensures r.None? <==> forall i :: 0 <= i < |users| ==> !keep(users[i])
    ensures r.Some? ==> exists i :: (0 <= i < |users| && users[i] == r.value && keep(users[i]) &&
      forall j :: 0 <= j < i ==> !keep(users[j]))
  {
    if users == [] then None
    else if keep(users[0]) then Some(users[0])
    else
      var r := First(users[1..], keep);
      assert forall j :: 1 <= j < |users| ==> users[j] == users[1..][j - 1];
      if r.Some? then
        var i :| 0 <= i < |users[1..]| && users[1..][i] == r.value && keep(users[1..][i]) &&
          forall j :: 0 <= j < i ==> !keep(users[1..][j]);
        assert users[i + 1] == r.value && forall j :: 0 <= j < i + 1 ==> !keep(users[j]);
        r
      else r
  }

  function ByEmail(users: seq<User>, email: string): Option<User> {
    First(users, (u: User) => u.email == Some(email))
  }

  function ById(users: seq<User>, id: nat): Option<User> {
    First(users, (u: User) => u.id == id)
  }

  datatype SignResult = SignResult(status: bool, response: string, user: Option<User>)

  /** `get_sign_user` (lines 215-225): an unknown email, then a wrong
      password, then the first row matching both. */
  function GetSignUser(users: seq<User>, email: string, password: string): (r: SignResult)
    ensures r.status <==> exists i :: 0 <= i < |users| && users[i].email == Some(email) && users[i].password == Some(password)
    ensures (forall i :: 0 <= i < |users| ==> users[i].email != Some(email)) ==> r == SignResult(false, EmailNotFound, None)
    ensures (exists i :: 0 <= i < |users| && users[i].email == Some(email)) && !r.status ==> r == SignResult(false, WrongPassword, None)
    ensures r.status ==> (r.response == UserFound && r.user.Some? &&
      r.user.value.email == Some(email) && r.user.value.password == Some(password) && r.user.value in users)
    ensures r.status ==> exists i :: (0 <= i < |users| && users[i] == r.user.value &&
      forall j :: 0 <= j < i ==> !(users[j].email == Some(email) && users[j].password == Some(password)))
  {
    var byEmail := ByEmail(users, email);
    if byEmail.None? then SignResult(false, EmailNotFound, None)
    else
      var match_ := First(users, (u: User) => u.email == Some(email) && u.password == Some(password));
      if match_.None? then SignResult(false, WrongPassword, None)
      else SignResult(true, UserFound, match_)
  }

  /** Rows keep their ids unique and increasing, all below `nextId`. */
  ghost predicate Ordered(users: seq<User>, nextId: nat) {
    (forall i, j :: 0 <= i < j < |users| ==> users[i].id < users[j].id) &&
    forall i :: 0 <= i < |users| ==> users[i].id < nextId
  }

  /** `UserRepository` over the `users` table. */
  class UserRepository {
    var users: seq<User>
    var nextId: nat

    ghost predicate Valid()
      reads this
    {
      Ordered(users, nextId)
    }

    constructor ()
      ensures Valid() && users == []
    {
      users := [];
      nextId := 1;
    }

    /** `create_user` (lines 147-173): the three flags default to false. */
    method CreateUser(email: string, password: string, firstName: Option<string> := None, lastName: Option<string> := None,
                      middleName: Option<string> := None, position: Option<string> := None,
                      canConnect: bool := false, canCreate: bool := false, isAdmin: bool := false)
      returns (u: User)
      requires Valid()
      modifies this
      ensures Valid()
      ensures u == User(old(nextId), Some(email), firstName, lastName, middleName, position, Some(password), canConnect, canCreate, isAdmin)
      ensures users == old(users) + [u] && nextId == old(nextId) + 1
    {
      u := User(nextId, Some(email), firstName, lastName, middleName, position, Some(password), canConnect, canCreate, isAdmin);
      users := users + [u];
      nextId := nextId + 1;
    }

    /** `create_defoult_admin` (lines 175-198): the existing admin row, or a
        new one with all three flags set. */
    method CreateDefaultAdmin() returns (u: User)
      requires Valid()
      modifies this
      ensures Valid()
      ensures ByEmail(users, AdminEmail) == Some(u) && u.email == Some(AdminEmail)
      ensures old(ByEmail(users, AdminEmail)).Some? ==> u == old(ByEmail(users, AdminEmail)).value && unchanged(this)
      ensures old(ByEmail(users, AdminEmail)).None? ==>
        u.canConnect && u.canCreate && u.isAdmin && users == old(users) + [u] && u.password == Some("admin1234")
    {
      var found := ByEmail(users, AdminEmail);
      if found.Some? {
        return found.value;
      }
      u := CreateUser(AdminEmail, "admin1234", Some("Админ"), Some("Царь"), Some("Конференций"), Some("Директор"), true, true, true);
      assert users[|users| - 1] == u;
    }

    /** `get_user_by_id` (lines 200-205). */
    method GetUserById(id: nat) returns (u: Option<User>)
      ensures u == ById(users, id)
      ensures u.Some? ==> u.value in users && u.value.id == id
    {
      u := ById(users, id);
    }

    /** `get_user_by_email` (lines 207-212). */
    method GetUserByEmail(email: string) returns (u: Option<User>)
      ensures u == ByEmail(users, email)
      ensures u.None? <==> forall i :: 0 <= i < |users| ==> users[i].email != Some(email)
    {
      u := ByEmail(users, email);
    }

    /** `get_all_users` (lines 228-233). */
    method GetAllUsers() returns (all: seq<User>)
      ensures all == users
    {
      all := users;
    }

    /** `update_user` (lines 235-244): None for an unknown id; otherwise the
        row is patched in place and returned. */
    method UpdateUser(id: nat, p: Patch) returns (u: Option<User>)
      requires Valid()
      modifies this
      ensures Valid()
      ensures old(ById(users, id)).None? <==> u.None?
      ensures u.None? ==> unchanged(this)
      ensures u.Some? ==> (u.value == Patched(old(ById(users, id)).value, p) && |users| == |old(users)| &&
        forall i :: 0 <= i < |users| ==> users[i] == if old(users)[i].id == id then u.value else old(users)[i])
      ensures nextId == old(nextId)
    {
      var found := ById(users, id);
      if found.None? {
        return None;
      }
      var i := 0;
      while users[i].id != id
        invariant 0 <= i < |users| && forall j :: 0 <= j < i ==> users[j].id != id
        invariant exists k :: i <= k < |users| && users[k].id == id
        decreases |users| - i
      {
        i := i + 1;
      }
      assert users[i] == found.value;
      var patched := Patched(users[i], p);
      ghost var before := users;
      users := users[i := patched];
      assert forall j :: 0 <= j < |before| && j != i ==> before[j].id != id;
      u := Some(patched);
    }

    /** `delete_user` (lines 246-255): true exactly when the id existed, and
        its row is gone afterwards. */
    method DeleteUser(id: nat) returns (deleted: bool)
      requires Valid()
      modifies this
      ensures Valid()
      ensures deleted <==> old(ById(users, id)).Some?
      ensures ById(users, id).None?
      ensures !deleted ==> unchanged(this)
      ensures deleted ==> exists i :: 0 <= i < |old(users)| && old(users)[i].id == id && users == old(users)[..i] + old(users)[i + 1..]
      ensures nextId == old(nextId)
    {
      var found := ById(users, id);
      if found.None? {
        return false;
      }
      var i := 0;
      while users[i].id != id
        invariant 0 <= i < |users| && forall j :: 0 <= j < i ==> users[j].id != id
        invariant exists k :: i <= k < |users| && users[k].id == id
        decreases |users| - i
      {
        i := i + 1;
      }
      ghost var before := users;
      users := users[..i] + users[i + 1..];
      assert forall j :: 0 <= j < |users| ==> users[j] == if j < i then before[j] else before[j + 1];
      assert forall j :: 0 <= j < |users| ==> users[j].id != id;
      deleted := true;
    }
  }
}
