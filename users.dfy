/**
 * User administration: the create/edit form with its required fields, e-mail pattern, unique
 * username/document/e-mail and password length rules, the upsert that stores a submitted form,
 * and the delete that refuses to remove the logged-in account.
 */
module Users {
  import opened Common
  import opened Text
  import opened Records

  // ----- validation -----

  /** The fields every user form must fill in. */
  const UserRequired := ["lastName", "firstName", "document", "email", "username", "role", "securityQuestion", "securityAnswer"]

  /** The required list of the form: the password only when creating. */
  function RequiredFields(editing: bool): (r: seq<string>)
    ensures |r| >= 8 && r[..8] == UserRequired
    ensures "password" in r <==> !editing
  {
    if editing then UserRequired else UserRequired + ["password"]
  }

  /** The stored field a uniqueness rule compares, by its form name. */
  function UserField(u: User, key: string): (r: string)
    ensures key == "username" ==> r == u.username
    ensures key == "document" ==> r == u.document
    ensures key == "email" ==> r == u.email
  {
    if key == "username" then u.username
    else if key == "document" then u.document
    else if key == "email" then u.email
    else ""
  }

  /** The form's non-empty `key` equals that of an account other than the one under edit. */
  predicate Taken(users: seq<User>, current: Option<User>, form: Form, key: string) {
    Field(form, key) != ""
    && exists i :: 0 <= i < |users| && UserField(users[i], key) == Field(form, key)
                   && (current.None? || users[i].id != current.value.id)
  }

  /** A password was typed that is shorter than six characters. */
  predicate ShortPassword(form: Form) {
    0 < |Field(form, "password")| < 6
  }

  /** `validateUserForm`, as a predicate of the accounts, the account under edit and the form. */
  predicate FormValid(users: seq<User>, current: Option<User>, form: Form) {
    MissingOf(form, RequiredFields(current.Some?)) == []
    && (Field(form, "email") == "" || IsValidEmail(Field(form, "email")))
    && !Taken(users, current, form, "username")
    && !Taken(users, current, form, "document")
    && !Taken(users, current, form, "email")
    && !ShortPassword(form)
  }

  lemma ValidFormRequired(users: seq<User>, current: Option<User>, form: Form)
    requires MissingOf(form, RequiredFields(current.Some?)) == []
    ensures forall i :: 0 <= i < |UserRequired| ==> !IsBlank(Field(form, UserRequired[i]))
    ensures current.None? ==> Field(form, "password") != ""
    ensures Field(form, "email") != ""
  {
    var fields := RequiredFields(current.Some?);
    MissingOfEmpty(form, fields);
    forall i | 0 <= i < |UserRequired|
      ensures !IsBlank(Field(form, UserRequired[i]))
    {
      assert fields[..8][i] == fields[i];
    }
    if current.None? {
      assert fields == UserRequired + ["password"];
      assert !Missing(form, fields[8]);
    }
    assert !IsBlank(Field(form, UserRequired[3]));
  }

  /** What an accepted form guarantees about its fields. */
  lemma ValidFormGuarantees(users: seq<User>, current: Option<User>, form: Form)
    requires FormValid(users, current, form)
    ensures forall i :: 0 <= i < |UserRequired| ==> !IsBlank(Field(form, UserRequired[i]))
    ensures current.None? ==> |Field(form, "password")| >= 6
    ensures current.Some? ==> Field(form, "password") == "" || |Field(form, "password")| >= 6
    ensures IsValidEmail(Field(form, "email"))
  {
    ValidFormRequired(users, current, form);
  }

  /** Resubmitting an account's own username, document and e-mail while editing it clashes with nobody else. */
  lemma OwnValuesNotTaken(users: seq<User>, k: nat, form: Form, key: string)
    requires k < |users|
    requires forall i :: 0 <= i < |users| && i != k ==> users[i].id != users[k].id && UserField(users[i], key) != UserField(users[k], key)
    requires Field(form, key) == UserField(users[k], key)
    ensures !Taken(users, Some(users[k]), form, key)
  {
  }

  // ----- storing a submitted form -----

  /** `generateUserId`: one more than the largest id, or 1 when there are no accounts. */
  function GenerateUserId(users: seq<User>): (r: int)
    ensures r >= 1 && forall i :: 0 <= i < |users| ==> users[i].id < r
  {
    NextId(UserIds(users))
  }

  /** The record a valid form becomes, with the id, password and creation time it is given. */
  function FromForm(form: Form, id: int, password: string, createdAt: string, now: string): (u: User)
    ensures u.id == id && u.password == password && u.createdAt == createdAt && u.updatedAt == now
    ensures u.username == Field(form, "username") && u.document == Field(form, "document") && u.email == Field(form, "email")
    ensures u.active <==> Field(form, "active") == "true"
  {
    User(id, Field(form, "username"), password, Field(form, "email"), Field(form, "firstName"),
         Field(form, "lastName"), Field(form, "document"), Field(form, "role"),
         Field(form, "securityQuestion"), Field(form, "securityAnswer"),
         Field(form, "active") == "true", createdAt, now)
  }

  /**
   * The update `handleUserSubmit` makes once the form is valid. Editing replaces the first
   * account with the edited id, keeping its id, creation time and (when none was typed) its
   * password; creating appends an account with a fresh id.
   */
  function Upsert(users: seq<User>, current: Option<User>, form: Form, now: string): (r: seq<User>)
  {
    if current.Some? then
      var c := current.value;
      var password := if Field(form, "password") == "" then c.password else Field(form, "password");
      var k := FindIndex(users, (u: User) => u.id == c.id);
      if k.Some? then users[k.value := FromForm(form, c.id, password, c.createdAt, now)] else users
    else
      users + [FromForm(form, GenerateUserId(users), Field(form, "password"), now, now)]
  }

  /** Editing: the first account with the edited id is replaced and every other account is kept. */
  lemma UpsertEdits(users: seq<User>, current: User, form: Form, now: string, k: nat)
    requires k < |users| && users[k].id == current.id
    requires forall j :: 0 <= j < k ==> users[j].id != current.id
    ensures var r := Upsert(users, Some(current), form, now);
      |r| == |users| && (forall j :: 0 <= j < |users| && j != k ==> r[j] == users[j])
      && r[k].id == current.id && r[k].createdAt == current.createdAt && r[k].updatedAt == now
      && r[k].password == (if Field(form, "password") == "" then current.password else Field(form, "password"))
      && r[k].username == Field(form, "username")
      && (r[k].active <==> Field(form, "active") == "true")
  {
    var f := FindIndex(users, (u: User) => u.id == current.id);
    assert f == Some(k);
  }

  /** Editing an account that is no longer stored changes nothing. */
  lemma UpsertEditGone(users: seq<User>, current: User, form: Form, now: string)
    requires forall j :: 0 <= j < |users| ==> users[j].id != current.id
    ensures Upsert(users, Some(current), form, now) == users
  {
  }

  /** Creating: the accounts are kept and one with a fresh id is appended. */
  lemma UpsertCreates(users: seq<User>, form: Form, now: string)
    ensures var r := Upsert(users, None, form, now);
      |r| == |users| + 1 && r[..|users|] == users
      && r[|users|].id >= 1 && (forall j :: 0 <= j < |users| ==> users[j].id != r[|users|].id)
      && r[|users|].password == Field(form, "password") && r[|users|].createdAt == now
      && (r[|users|].active <==> Field(form, "active") == "true")
  {
  }

  /** No two accounts share an id, and no two share a non-empty username, document or e-mail. */
  predicate Distinguished(users: seq<User>) {
    (forall i, j :: 0 <= i < j < |users| ==> users[i].id != users[j].id)
    && (forall i, j :: 0 <= i < j < |users| ==> users[i].username == "" || users[i].username != users[j].username)
    && (forall i, j :: 0 <= i < j < |users| ==> users[i].document == "" || users[i].document != users[j].document)
    && (forall i, j :: 0 <= i < j < |users| ==> users[i].email == "" || users[i].email != users[j].email)
  }

  lemma EditKeepsDistinguished(users: seq<User>, c: User, form: Form, now: string)
    requires Distinguished(users)
    requires !Taken(users, Some(c), form, "username")
    requires !Taken(users, Some(c), form, "document")
    requires !Taken(users, Some(c), form, "email")
    ensures Distinguished(Upsert(users, Some(c), form, now))
  {
    var f := FindIndex(users, (u: User) => u.id == c.id);
    if f.Some? {
      var k := f.value;
      var password := if Field(form, "password") == "" then c.password else Field(form, "password");
      var u := FromForm(form, c.id, password, c.createdAt, now);
      assert Upsert(users, Some(c), form, now) == users[k := u];
      forall j | 0 <= j < |users| && j != k
        ensures users[j].id != u.id
        ensures u.username == "" || users[j].username != u.username
        ensures u.document == "" || users[j].document != u.document
        ensures u.email == "" || users[j].email != u.email
      {
        assert users[k].id == c.id;
        assert UserField(users[j], "username") == users[j].username;
        assert UserField(users[j], "document") == users[j].document;
        assert UserField(users[j], "email") == users[j].email;
      }
      ReplaceDistinguished(users, k, u);
    }
  }

  /** An account that clashes with none of the others keeps them distinguished when it replaces the one at `k`. */
  lemma ReplaceDistinguished(users: seq<User>, k: nat, u: User)
    requires Distinguished(users) && k < |users|
    requires forall j :: 0 <= j < |users| && j != k ==> users[j].id != u.id
    requires forall j :: 0 <= j < |users| && j != k ==> u.username == "" || users[j].username != u.username
    requires forall j :: 0 <= j < |users| && j != k ==> u.document == "" || users[j].document != u.document
    requires forall j :: 0 <= j < |users| && j != k ==> u.email == "" || users[j].email != u.email
    ensures Distinguished(users[k := u])
  {
    var r := users[k := u];
    forall i, j | 0 <= i < j < |r|
      ensures r[i].id != r[j].id
      ensures r[i].username == "" || r[i].username != r[j].username
      ensures r[i].document == "" || r[i].document != r[j].document
      ensures r[i].email == "" || r[i].email != r[j].email
    {
      if i == k {
        assert r[j] == users[j];
      } else if j == k {
        assert r[i] == users[i];
      } else {
        assert r[i] == users[i] && r[j] == users[j];
      }
    }
  }

  lemma CreateKeepsDistinguished(users: seq<User>, form: Form, now: string)
    requires Distinguished(users)
    requires !Taken(users, None, form, "username")
    requires !Taken(users, None, form, "document")
    requires !Taken(users, None, form, "email")
    ensures Distinguished(Upsert(users, None, form, now))
  {
    var u := FromForm(form, GenerateUserId(users), Field(form, "password"), now, now);
    assert Upsert(users, None, form, now) == users + [u];
    forall j | 0 <= j < |users|
      ensures users[j].id != u.id
      ensures u.username == "" || users[j].username != u.username
      ensures u.document == "" || users[j].document != u.document
      ensures u.email == "" || users[j].email != u.email
    {
      assert UserField(users[j], "username") == users[j].username;
      assert UserField(users[j], "document") == users[j].document;
      assert UserField(users[j], "email") == users[j].email;
    }
    AppendDistinguished(users, u);
  }

  /** An account that clashes with none of the others keeps them distinguished when appended. */
  lemma AppendDistinguished(users: seq<User>, u: User)
    requires Distinguished(users)
    requires forall j :: 0 <= j < |users| ==> users[j].id != u.id
    requires forall j :: 0 <= j < |users| ==> u.username == "" || users[j].username != u.username
    requires forall j :: 0 <= j < |users| ==> u.document == "" || users[j].document != u.document
    requires forall j :: 0 <= j < |users| ==> u.email == "" || users[j].email != u.email
    ensures Distinguished(users + [u])
  {
    var r := users + [u];
    forall i, j | 0 <= i < j < |r|
      ensures r[i].id != r[j].id
      ensures r[i].username == "" || r[i].username != r[j].username
      ensures r[i].document == "" || r[i].document != r[j].document
      ensures r[i].email == "" || r[i].email != r[j].email
    {
      assert r[i] == users[i];
      if j < |users| {
        assert r[j] == users[j];
      } else {
        assert r[j] == u;
      }
    }
  }

  /** Storing a valid form keeps accounts distinguished. */
  lemma UpsertKeepsDistinguished(users: seq<User>, current: Option<User>, form: Form, now: string)
    requires Distinguished(users)
    requires FormValid(users, current, form)
    ensures Distinguished(Upsert(users, current, form, now))
  {
    if current.Some? {
      EditKeepsDistinguished(users, current.value, form, now);
    } else {
      CreateKeepsDistinguished(users, form, now);
    }
  }

  /** After a valid submit the stored password is the previous one or has at least six characters. */
  lemma StoredPasswordLength(users: seq<User>, current: Option<User>, form: Form, now: string, i: nat)
    requires FormValid(users, current, form)
    requires i < |Upsert(users, current, form, now)|
    ensures var r := Upsert(users, current, form, now);
      (i < |users| && r[i] == users[i]) || |r[i].password| >= 6
      || (current.Some? && r[i].password == current.value.password)
  {
    ValidFormGuarantees(users, current, form);
    UpsertPassword(users, current, form, now, i);
  }

  /** Each stored account is kept, or holds the typed password, or keeps the edited account's. */
  lemma UpsertPassword(users: seq<User>, current: Option<User>, form: Form, now: string, i: nat)
    requires i < |Upsert(users, current, form, now)|
    ensures var r := Upsert(users, current, form, now);
      (i < |users| && r[i] == users[i]) || (r[i].password == Field(form, "password") != "")
      || (current.Some? && r[i].password == current.value.password)
      || (current.None? && r[i].password == Field(form, "password"))
  {
    var r := Upsert(users, current, form, now);
    var typed := Field(form, "password");
    if current.Some? {
      var c := current.value;
      var f := FindIndex(users, (u: User) => u.id == c.id);
      if f.Some? && i == f.value {
        assert r[i] == FromForm(form, c.id, if typed == "" then c.password else typed, c.createdAt, now);
      } else {
        assert r[i] == users[i];
      }
    } else if i < |users| {
      assert r[i] == users[i];
    } else {
      assert r[i] == FromForm(form, GenerateUserId(users), typed, now, now);
    }
  }

  // ----- delete -----

  /**
   * `deleteUser`: unknown ids and the logged-in account are left alone; otherwise, with the
   * user's confirmation, every account with that id is removed and the rest kept in order.
   */
  function Delete(users: seq<User>, id: int, session: Option<User>, confirmed: bool): (r: seq<User>)
    ensures session.Some? && session.value.id == id ==> r == users
    ensures !confirmed ==> r == users
    ensures r != users ==> forall i :: 0 <= i < |r| ==> r[i].id != id
    ensures multiset(r) <= multiset(users)
    ensures forall u :: u in multiset(users) && u.id != id ==> multiset(r)[u] == multiset(users)[u]
  {
    if FindIndex(users, (u: User) => u.id == id).None? then users
    else if session.Some? && session.value.id == id then users
    else if !confirmed then users
    else
      FilterMultiset(users, (u: User) => u.id != id);
      Filter(users, (u: User) => u.id != id)
  }

  /** A confirmed delete of another account leaves no account with that id. */
  lemma DeleteRemoves(users: seq<User>, id: int, session: Option<User>)
    requires session.None? || session.value.id != id
    ensures forall i :: 0 <= i < |Delete(users, id, session, true)| ==> Delete(users, id, session, true)[i].id != id
  {
  }

  // ----- seed -----

  const SeedAdminQuestion := "¿Cuál es tu color favorito?"
  const SeedUserQuestion := "¿Cuál es el nombre de tu primera mascota?"

  /** The two accounts `loadUsers` stores when none are saved. */
  function SeedUsers(now: string): (r: seq<User>)
    ensures |r| == 2 && r[0].id == 1 && r[1].id == 2 && r[0].role == RoleAdmin
    ensures Distinguished(r)
  {
    [ User(1, "admin", "admin123", "admin@sistemaagraria.com", "Sistema", "Administrador", "12345678", RoleAdmin,
           SeedAdminQuestion, "azul", true, now, now),
      User(2, "jgarcia", "usuario123", "juan.garcia@email.com", "Juan", "García", "87654321", "estandar",
           SeedUserQuestion, "firulais", true, now, now) ]
  }

  /** The administration page: the accounts and the account whose form is open for editing. */
  class UsersModule {
    var users: seq<User>
    /** `currentUser`; the page's `isEditing` flag is always `currentUser != null`. */
    var currentUser: Option<User>

    /** `loadUsers`: the saved accounts, or the seed. */
    constructor (saved: Option<seq<User>>, now: string)
      ensures users == (if saved.Some? then saved.value else SeedUsers(now))
      ensures currentUser == None
    {
      users := if saved.Some? then saved.value else SeedUsers(now);
      currentUser := None;
    }

    /** `showUserModal`: the given account (or none, to create one) is the one under edit. */
    method ShowUserModal(user: Option<User>)
      modifies this
      ensures currentUser == user && users == old(users)
    {
      currentUser := user;
    }

    /** `closeUserModal`. */
    method CloseUserModal()
      modifies this
      ensures currentUser == None && users == old(users)
    {
      currentUser := None;
    }

    /** `editUser`: the first account with that id is opened for editing, if there is one. */
    method EditUser(id: int)
      modifies this
      ensures var k := FindIndex(old(users), (u: User) => u.id == id);
        currentUser == (if k.Some? then Some(old(users)[k.value]) else old(currentUser))
      ensures users == old(users)
    {
      var k := FindIndex(users, (u: User) => u.id == id);
      if k.Some? {
        ShowUserModal(Some(users[k.value]));
      }
    }

    /** `validateUserForm`: the required-field loop (with the password when creating), then the e-mail, uniqueness and password checks. */
    method ValidateUserForm(form: Form) returns (valid: bool)
      ensures valid <==> FormValid(users, currentUser, form)
    {
      var required := UserRequired;
      if currentUser.None? {
        required := required + ["password"];
      }
      var flagged;
      valid, flagged := CheckRequired(form, required);
      MissingOfEmpty(form, required);
      var email := Field(form, "email");
      if email != "" && !IsValidEmail(email) {
        valid := false;
      }
      if Taken(users, currentUser, form, "username") {
        valid := false;
      }
      if Taken(users, currentUser, form, "document") {
        valid := false;
      }
      if Taken(users, currentUser, form, "email") {
        valid := false;
      }
      if ShortPassword(form) {
        valid := false;
      }
    }

    /** `handleUserSubmit`: a valid form is stored and the form closed; an invalid one changes nothing. */
    method HandleUserSubmit(form: Form, now: string) returns (saved: bool)
      modifies this
      ensures saved == FormValid(old(users), old(currentUser), form)
      ensures saved ==> users == Upsert(old(users), old(currentUser), form, now) && currentUser == None
      ensures !saved ==> users == old(users) && currentUser == old(currentUser)
    {
      saved := ValidateUserForm(form);
      if !saved {
        return;
      }
      users := Upsert(users, currentUser, form, now);
      CloseUserModal();
    }

    /** `deleteUser`, with the logged-in account and the answer to the confirmation. */
    method DeleteUser(id: int, session: Option<User>, confirmed: bool)
      modifies this
      ensures users == Delete(old(users), id, session, confirmed)
      ensures currentUser == old(currentUser)
    {
      users := Delete(users, id, session, confirmed);
    }
  }
}
