/**
 * Authentication: the accounts, the stored session and its 24-hour lifetime, login, the role
 * predicates and route guards, and the three-step password recovery.
 */
module Auth {
  import opened Common
  import opened Text
  import opened Records

  /** A session lasts 24 hours, in milliseconds. */
  const SessionMaxAge := 24 * 60 * 60 * 1000

  /** What a stored session says; `timestamp` is the login time in milliseconds. */
  datatype SessionData = SessionData(userId: int, username: string, role: string, timestamp: int, rememberMe: bool)

  /** The stored session text: it parses to a session or it does not. */
  datatype StoredSession = Parsed(data: SessionData) | Unreadable

  /** The accounts available before any account was saved. */
  function DefaultUsers(createdAt: string): (r: seq<User>)
    ensures |r| == 4
    ensures forall i :: 0 <= i < 4 ==> r[i].id == i + 1 && r[i].active
    ensures r[0].role == RoleAdmin && r[1].role == RoleJefeArea
    ensures r[2].role == RoleProfesorAnimal && r[3].role == RoleProfesorVegetal
  {
    [ User(1, "admin", "admin123", "admin@sistemaagraria.com", "Administrador", "Sistema", "", RoleAdmin,
           "¿Cuál es el nombre de tu primera mascota?", "firulais", true, createdAt, ""),
      User(2, "jefe", "jefe123", "jefe.area@sistemaagraria.com", "Jefe", "Área", "", RoleJefeArea,
           "¿En qué ciudad naciste?", "buenos aires", true, createdAt, ""),
      User(3, "prof.animal", "prof123", "prof.animal@sistemaagraria.com", "Ana", "Martínez", "", RoleProfesorAnimal,
           "¿Cuál es tu color favorito?", "azul", true, createdAt, ""),
      User(4, "prof.vegetal", "prof123", "prof.vegetal@sistemaagraria.com", "María", "González", "", RoleProfesorVegetal,
           "¿Cuál es tu comida favorita?", "milanesa", true, createdAt, "") ]
  }

  // ----- session -----

  /** `isSessionValid`: the session is younger than 24 hours. */
  predicate SessionValid(data: SessionData, now: int) {
    now - data.timestamp < SessionMaxAge
  }

  /** A session stays valid for strictly less than 24 hours after it was created. */
  lemma SessionLifetime(data: SessionData, now: int)
    ensures SessionValid(data, now) <==> now < data.timestamp + 86400000
    ensures !SessionValid(data, data.timestamp + 86400000)
    ensures now <= data.timestamp ==> SessionValid(data, now)
  {
  }

  /** `users.find(u => u.id === userId)`. */
  function FindUserById(users: seq<User>, id: int): (r: Option<nat>)
    ensures r.Some? ==> r.value < |users| && users[r.value].id == id
    ensures r.Some? ==> forall j :: 0 <= j < r.value ==> users[j].id != id
    ensures r.None? ==> forall j :: 0 <= j < |users| ==> users[j].id != id
  {
    FindIndex(users, (u: User) => u.id == id)
  }

  /** The account a stored session restores (`checkSession`), or `None` when the session must be cleared. */
  function SessionUser(users: seq<User>, stored: StoredSession, now: int): (r: Option<User>)
    ensures r.Some? ==> stored.Parsed? && SessionValid(stored.data, now)
    ensures r.Some? ==> r.value in users && r.value.id == stored.data.userId && r.value.active
    ensures stored.Parsed? && SessionValid(stored.data, now)
            && (exists i :: 0 <= i < |users| && users[i].id == stored.data.userId)
            && (forall i :: 0 <= i < |users| && users[i].id == stored.data.userId ==> users[i].active)
            ==> r.Some?
  {
    match stored
    case Unreadable => None
    case Parsed(data) =>
      match FindUserById(users, data.userId)
      case None => None
      case Some(k) => if users[k].active && SessionValid(data, now) then Some(users[k]) else None
  }

  /** `redirectToDashboard` acts only on the login page: the last path segment is empty or `index.html`. */
  predicate IsIndexPath(path: string) {
    var last := ToLower(LastSegment(path, '/'));
    last == "" || last == "index.html"
  }

  // ----- login -----

  /** A login attempt either lacks a field, matches no active account, or logs in one account. */
  datatype LoginOutcome = MissingFields | BadCredentials | LoggedIn(user: User)

  /** The account login accepts: same user name ignoring case, same password, active. */
  predicate LoginMatch(u: User, username: string, password: string) {
    EqualsIgnoreCase(u.username, username) && u.password == password && u.active
  }

  /**
   * `handleLogin`: the user name is trimmed, the password is not; a blank user name or an
   * empty password is refused before any lookup; otherwise the first matching account logs in.
   */
  function Login(users: seq<User>, usernameInput: string, password: string): (r: LoginOutcome)
    ensures r.MissingFields? <==> Trim(usernameInput) == "" || password == ""
    ensures r.LoggedIn? ==> r.user in users && LoginMatch(r.user, Trim(usernameInput), password)
    ensures r.LoggedIn? ==>
              exists k :: (0 <= k < |users| && users[k] == r.user
                           && forall j :: 0 <= j < k ==> !LoginMatch(users[j], Trim(usernameInput), password))
    ensures r.BadCredentials? <==>
            !r.MissingFields? && forall k :: 0 <= k < |users| ==> !LoginMatch(users[k], Trim(usernameInput), password)
  {
    var username := Trim(usernameInput);
    if username == "" || password == "" then MissingFields
    else
      match FindIndex(users, (u: User) => LoginMatch(u, username, password))
      case None => BadCredentials
      case Some(k) => LoggedIn(users[k])
  }

  lemma TrimPaddedAdmin()
    ensures Trim(" ADMIN ") == "ADMIN"
  {
    assert TrimStart(" ADMIN ") == TrimStart("ADMIN ") == "ADMIN ";
    assert "ADMIN "[..5] == "ADMIN";
    assert TrimEnd("ADMIN ") == TrimEnd("ADMIN") == "ADMIN";
  }

  lemma LowerAdmin()
    ensures ToLower("ADMIN") == ToLower("admin") == "admin"
  {
    assert LowerChar('A') == 'a' && LowerChar('D') == 'd' && LowerChar('M') == 'm';
    assert LowerChar('I') == 'i' && LowerChar('N') == 'n';
  }

  /** The administrator of the seeded accounts can log in, whatever the case and padding of the name. */
  lemma AdminLogsIn(createdAt: string)
    ensures Login(DefaultUsers(createdAt), " ADMIN ", "admin123") == LoggedIn(DefaultUsers(createdAt)[0])
  {
    var users := DefaultUsers(createdAt);
    TrimPaddedAdmin();
    LowerAdmin();
    assert LoginMatch(users[0], "ADMIN", "admin123");
  }

  /** The password is compared exactly: padding it is refused. */
  lemma PaddedPasswordRefused(createdAt: string)
    ensures Login(DefaultUsers(createdAt), " ADMIN ", " admin123").BadCredentials?
  {
    var users := DefaultUsers(createdAt);
    TrimPaddedAdmin();
    assert |" admin123"| == 9;
    assert forall k :: 0 <= k < |users| ==> |users[k].password| < 9;
    assert forall k :: 0 <= k < |users| ==> !LoginMatch(users[k], "ADMIN", " admin123");
    assert Trim(" ADMIN ") != "" && " admin123" != "";
  }

  // ----- roles and guards (functions of the logged-in account) -----

  /** `hasRole(role)`. */
  predicate HasRole(current: Option<User>, role: string) {
    current.Some? && current.value.role == role
  }

  predicate IsAdmin(current: Option<User>) {
    HasRole(current, RoleAdmin)
  }

  predicate IsJefeArea(current: Option<User>) {
    HasRole(current, RoleJefeArea)
  }

  /** Both teacher roles, `profesor_animal` and `profesor_vegetal`. */
  predicate IsProfesorRole(role: string) {
    role == RoleProfesorAnimal || role == RoleProfesorVegetal
  }

  predicate IsProfesor(current: Option<User>) {
    current.Some? && IsProfesorRole(current.value.role)
  }

  /** `getProfesorTipo`: the kind of environment a teacher works with, `null` for everyone else. */
  function ProfesorTipo(current: Option<User>): (r: Option<string>)
    ensures r.Some? <==> IsProfesor(current)
    ensures r == Some("animal") <==> HasRole(current, RoleProfesorAnimal)
    ensures r == Some("vegetal") <==> HasRole(current, RoleProfesorVegetal)
  {
    if !IsProfesor(current) then None
    else if current.value.role == RoleProfesorAnimal then Some("animal") else Some("vegetal")
  }

  /** Nobody logged in has no role; a logged-in account has at most one of the three kinds. */
  lemma RolesExclusive(current: Option<User>)
    ensures current.None? ==> !IsAdmin(current) && !IsJefeArea(current) && !IsProfesor(current)
    ensures !(IsAdmin(current) && IsJefeArea(current))
    ensures !(IsAdmin(current) && IsProfesor(current))
    ensures !(IsJefeArea(current) && IsProfesor(current))
  {
  }

  /** `requireAuth`: true exactly when someone is logged in (otherwise the page goes to the login). */
  function RequireAuth(current: Option<User>): (ok: bool)
    ensures ok <==> current.Some?
  {
    current != None
  }

  /** `requireAdmin`: true exactly when an administrator is logged in. */
  function RequireAdmin(current: Option<User>): (ok: bool)
    ensures ok <==> current.Some? && current.value.role == RoleAdmin
    ensures ok ==> RequireAuth(current)
  {
    RequireAuth(current) && IsAdmin(current)
  }

  // ----- password recovery -----

  /** What the recovery dialog holds when its button is pressed. */
  datatype RecoveryForm = RecoveryForm(username: string, securityAnswer: string, newPassword: string, confirmPassword: string)

  /** The recovery dialog's state: the current step, the account chosen in step 1, and whether it was closed. */
  datatype Recovery = Recovery(step: int, selected: Option<nat>, closed: bool)

  /** From step 2 on an account is selected, and it is one of `users`. */
  predicate RecoveryInv(r: Recovery, users: seq<User>) {
    1 <= r.step <= 3 && (r.step >= 2 ==> r.selected.Some? && r.selected.value < |users|)
  }

  /** Step 2 accepts the trimmed answer when it equals the stored answer ignoring case. */
  predicate AnswerMatches(u: User, answer: string) {
    ToLower(Trim(answer)) == ToLower(u.securityAnswer)
  }

  /** Step 3 accepts a new password of at least 6 characters that equals its confirmation. */
  predicate NewPasswordAccepted(newPassword: string, confirmPassword: string) {
    |newPassword| >= 6 && newPassword == confirmPassword
  }

  /** `selectedUser.password = newPassword` followed by saving the account list. */
  function SetPassword(users: seq<User>, k: nat, password: string): (r: seq<User>)
    requires k < |users|
    ensures |r| == |users|
    ensures r[k] == users[k].(password := password)
    ensures forall j :: 0 <= j < |users| && j != k ==> r[j] == users[j]
  {
    users[k := users[k].(password := password)]
  }

  /** One press of the dialog's button, with the accounts before and after it. */
  function RecoveryNext(r: Recovery, users: seq<User>, form: RecoveryForm): (res: (Recovery, seq<User>))
    requires RecoveryInv(r, users)
    ensures RecoveryInv(res.0, res.1) && |res.1| == |users|
  {
    if r.closed then (r, users)
    else if r.step == 1 then
      if IsBlank(form.username) then (r, users)
      else
        var found := FindIndex(users, (u: User) => EqualsIgnoreCase(u.username, Trim(form.username)));
        (Recovery(if found.Some? then 2 else 1, found, false), users)
    else if r.step == 2 then
      if AnswerMatches(users[r.selected.value], form.securityAnswer) then (r.(step := 3), users) else (r, users)
    else
      if NewPasswordAccepted(form.newPassword, form.confirmPassword) then
        (r.(closed := true), SetPassword(users, r.selected.value, form.newPassword))
      else (r, users)
  }

  /**
   * The dialog only moves forward one step at a time: step 1 advances exactly when an account
   * with that user name (ignoring case) exists, step 2 exactly when the answer matches.
   */
  lemma RecoveryAdvances(r: Recovery, users: seq<User>, form: RecoveryForm)
    requires RecoveryInv(r, users)
    ensures var (r', _) := RecoveryNext(r, users, form);
      (r'.step == r.step || r'.step == r.step + 1)
      && (r.step == 1 && !r.closed ==>
            (r'.step == 2 <==> !IsBlank(form.username)
                               && exists i :: 0 <= i < |users| && EqualsIgnoreCase(users[i].username, Trim(form.username))))
      && (r.step == 2 && !r.closed ==>
            (r'.step == 3 <==> AnswerMatches(users[r.selected.value], form.securityAnswer)))
  {
  }

  /**
   * Passwords change only in step 3, only for the account chosen in step 1, and only to an
   * accepted new password; every other field and every other account stays as it was.
   */
  lemma RecoveryChangesOnePassword(r: Recovery, users: seq<User>, form: RecoveryForm)
    requires RecoveryInv(r, users)
    ensures var (r', users') := RecoveryNext(r, users, form);
      |users'| == |users|
      && (users' != users ==> r.step == 3 && !r.closed && r'.closed
                               && NewPasswordAccepted(form.newPassword, form.confirmPassword))
      && (forall j :: 0 <= j < |users| ==>
            users'[j] == users[j]
            || (r.selected == Some(j) && users'[j] == users[j].(password := form.newPassword)))
  {
  }

  /** The session, the logged-in account and the account list of one page. */
  class AuthSystem {
    var users: seq<User>
    var currentUser: Option<User>
    var session: Option<StoredSession>

    /** `loadUsers`: the saved accounts, or the seeded ones when none were saved. */
    constructor (saved: Option<seq<User>>, storedSession: Option<StoredSession>, createdAt: string)
      ensures users == (if saved.Some? then saved.value else DefaultUsers(createdAt))
      ensures currentUser == None && session == storedSession
    {
      users := if saved.Some? then saved.value else DefaultUsers(createdAt);
      currentUser := None;
      session := storedSession;
    }

    /**
     * `checkSession`: with no stored session nothing happens; a session naming an active account
     * and younger than 24 hours logs that account in (and leaves the login page); anything else,
     * an unreadable session included, clears it.
     */
    method CheckSession(now: int, path: string) returns (redirect: bool)
      modifies this
      ensures users == old(users)
      ensures old(session).None? ==> currentUser == old(currentUser) && session == None && !redirect
      ensures old(session).Some? && SessionUser(users, old(session).value, now).Some? ==>
                currentUser == SessionUser(users, old(session).value, now) && session == old(session)
                && redirect == IsIndexPath(path)
      ensures old(session).Some? && SessionUser(users, old(session).value, now).None? ==>
                currentUser == None && session == None && !redirect
    {
      redirect := false;
      if session.Some? {
        var u := SessionUser(users, session.value, now);
        if u.Some? {
          currentUser := u;
          redirect := IsIndexPath(path);
        } else {
          ClearSession();
        }
      }
    }

    /** `createSession`: stores who logged in and when, and logs them in. */
    method CreateSession(user: User, rememberMe: bool, now: int)
      modifies this
      ensures session == Some(Parsed(SessionData(user.id, user.username, user.role, now, rememberMe)))
      ensures currentUser == Some(user) && users == old(users)
    {
      session := Some(Parsed(SessionData(user.id, user.username, user.role, now, rememberMe)));
      currentUser := Some(user);
    }

    /** `clearSession`: forgets the session and logs out. */
    method ClearSession()
      modifies this
      ensures session == None && currentUser == None && users == old(users)
    {
      session := None;
      currentUser := None;
    }

    /** `handleLogin`: a successful attempt creates the session; a refused one changes nothing. */
    method HandleLogin(username: string, password: string, rememberMe: bool, now: int) returns (outcome: LoginOutcome)
      modifies this
      ensures outcome == Login(old(users), username, password) && users == old(users)
      ensures outcome.LoggedIn? ==>
                currentUser == Some(outcome.user)
                && session == Some(Parsed(SessionData(outcome.user.id, outcome.user.username, outcome.user.role, now, rememberMe)))
      ensures !outcome.LoggedIn? ==> currentUser == old(currentUser) && session == old(session)
    {
      outcome := Login(users, username, password);
      if outcome.LoggedIn? {
        CreateSession(outcome.user, rememberMe, now);
      }
    }
  }

  /** The password-recovery dialog opened from the login page (`initPasswordRecovery`). */
  class PasswordRecovery {
    const auth: AuthSystem
    var step: int
    var selected: Option<nat>
    var closed: bool

    predicate Valid()
      reads this, auth
    {
      RecoveryInv(Recovery(step, selected, closed), auth.users)
    }

    constructor (auth: AuthSystem)
      ensures this.auth == auth && step == 1 && selected == None && !closed && Valid()
    {
      this.auth := auth;
      step := 1;
      selected := None;
      closed := false;
    }

    /** The dialog's button: runs the handler of the current step. */
    method Next(form: RecoveryForm)
      requires Valid()
      modifies this, auth`users
      ensures Valid()
      ensures (Recovery(step, selected, closed), auth.users)
              == RecoveryNext(old(Recovery(step, selected, closed)), old(auth.users), form)
    {
      if closed {
        return;
      }
      if step == 1 {
        if IsBlank(form.username) {
          return;
        }
        selected := FindIndex(auth.users, (u: User) => EqualsIgnoreCase(u.username, Trim(form.username)));
        if selected.Some? {
          step := 2;
        }
      } else if step == 2 {
        if AnswerMatches(auth.users[selected.value], form.securityAnswer) {
          step := 3;
        }
      } else {
        if NewPasswordAccepted(form.newPassword, form.confirmPassword) {
          auth.users := SetPassword(auth.users, selected.value, form.newPassword);
          closed := true;
        }
      }
    }
  }
}
