/**
 * The application shell shared by every page: the page name taken from the path, the
 * navigation links each role sees, the counts on the dashboard and the fallback for stored
 * collections.
 */
module Shell {
  import opened Common
  import opened Text
  import opened Records
  import Auth
  import Environments

  // ----- page name -----

  /** `getCurrentPage`: the last path segment without its first `.html`, or `index` when that is empty. */
  function CurrentPage(path: string): (r: string)
  {
    var page := ReplaceFirst(LastSegment(path, '/'), ".html", "");
    if page == "" then "index" else page
  }

  /** The page name is never empty and never holds a `/`. */
  lemma CurrentPageShape(path: string)
    ensures CurrentPage(path) != []
    ensures '/' !in CurrentPage(path)
  {
    var last := LastSegment(path, '/');
    ReplaceFirstLacks(last, ".html", '/');
    var page := ReplaceFirst(last, ".html", "");
    if page == "" {
      assert CurrentPage(path) == "index";
    } else {
      assert CurrentPage(path) == page;
    }
  }

  /** Removing the first occurrence of a pattern from a text without `c` leaves a text without `c`. */
  lemma ReplaceFirstLacks(s: string, pat: string, c: char)
    requires c !in s
    ensures c !in ReplaceFirst(s, pat, "")
  {
    var k := IndexOf(s, pat);
    if k.Some? {
      var a, b := s[..k.value], s[k.value + |pat|..];
      var r := ReplaceFirst(s, pat, "");
      assert r == a + b;
      forall j | 0 <= j < |r|
        ensures r[j] != c
      {
        if j < |a| {
          assert r[j] == s[j];
        } else {
          assert r[j] == s[j + |pat|];
        }
      }
    }
  }

  /** A path ending in `/` (the site root) is the login page. */
  lemma RootIsIndex(dir: string)
    ensures CurrentPage(dir + "/") == "index"
  {
    var p := dir + "/";
    assert p[|p| - 1] == '/';
    assert LastSegment(p, '/') == "";
  }

  /** The first `.html` of `name.html` is the suffix when `name` holds no dot. */
  lemma HtmlSuffixFirst(name: string)
    requires '.' !in name
    ensures IndexOf(name + ".html", ".html") == Some(|name|)
  {
    var file := name + ".html";
    assert file[|name|..|name| + 5] == ".html";
    NoDotBefore(name, ".html");
    FirstOccurrence(file, ".html", |name|);
  }

  /** No occurrence of a pattern starting with a dot begins inside a text without dots. */
  lemma NoDotBefore(name: string, rest: string)
    requires '.' !in name && rest != [] && rest[0] == '.'
    ensures forall j: nat :: j < |name| ==> !OccursAt(name + rest, rest, j)
  {
    var file := name + rest;
    forall j: nat | j < |name|
      ensures !OccursAt(file, rest, j)
    {
      assert file[j] == name[j];
      if j + |rest| <= |file| {
        assert file[j..j + |rest|][0] == file[j];
      }
    }
  }

  /** `<dir>/<name>.html` is the page `name` when `name` holds neither `/` nor `.`. */
  lemma HtmlPage(dir: string, name: string)
    requires name != [] && '/' !in name && '.' !in name
    ensures CurrentPage(dir + "/" + name + ".html") == name
  {
    var file := name + ".html";
    assert '/' !in file by {
      assert forall i :: 0 <= i < |name| ==> file[i] == name[i];
    }
    SegmentAfterSlash(dir, file);
    assert dir + "/" + name + ".html" == dir + "/" + file;
    HtmlSuffixFirst(name);
    assert file[..|name|] == name;
    assert file[|name| + 5..] == [];
  }

  lemma {:induction false} SegmentAfterSlash(dir: string, file: string)
    requires '/' !in file
    ensures LastSegment(dir + "/" + file, '/') == file
  {
    if file != [] {
      var p := dir + "/" + file;
      var init := file[..|file| - 1];
      assert p[..|p| - 1] == dir + "/" + init;
      assert p[|p| - 1] == file[|file| - 1];
      SegmentAfterSlash(dir, init);
      assert init + [file[|file| - 1]] == file;
    } else {
      assert (dir + "/" + file)[|dir + "/" + file| - 1] == '/';
    }
  }

  // ----- navigation -----

  /** The eight navigation links, all shown before a role's links are hidden. */
  const AllPages: set<string> := {"dashboard.html", "usuarios.html", "entornos.html", "actividades.html",
                                  "consulta-actividades.html", "ventas.html", "consulta-ventas.html", "inventario.html"}

  /** The links `applyNavVisibility` hides for the logged-in account. */
  function HiddenPages(current: Option<User>): (r: set<string>)
  {
    if Auth.IsAdmin(current) then {}
    else if Auth.IsJefeArea(current) then {"usuarios.html", "entornos.html", "actividades.html", "consulta-actividades.html"}
    else if Auth.IsProfesor(current) then
      {"usuarios.html", "actividades.html", "consulta-actividades.html", "ventas.html", "consulta-ventas.html", "inventario.html"}
    else {}
  }

  /**
   * `applyNavVisibility`: show every link, then hide the role's; with no logged-in account the
   * links are left as they were (`None`).
   */
  function NavVisibility(current: Option<User>): (r: Option<set<string>>)
    ensures current.None? <==> r.None?
    ensures r.Some? ==> r.value <= AllPages && "dashboard.html" in r.value
  {
    if current.None? then None else Some(AllPages - HiddenPages(current))
  }

  /** What each role sees in the navigation. */
  lemma NavByRole(u: User)
    ensures var v := NavVisibility(Some(u)).value;
      (u.role == RoleAdmin ==> v == AllPages)
      && (u.role == RoleJefeArea ==> v == {"dashboard.html", "ventas.html", "consulta-ventas.html", "inventario.html"})
      && (Auth.IsProfesorRole(u.role) ==> v == {"dashboard.html", "entornos.html"})
      && (u.role != RoleAdmin && u.role != RoleJefeArea && !Auth.IsProfesorRole(u.role) ==> v == AllPages)
  {
    var current := Some(u);
    if u.role == RoleJefeArea {
      assert AllPages - HiddenPages(current) == {"dashboard.html", "ventas.html", "consulta-ventas.html", "inventario.html"};
    }
    if Auth.IsProfesorRole(u.role) {
      assert AllPages - HiddenPages(current) == {"dashboard.html", "entornos.html"};
    }
  }

  /** The sales pages are shown to everyone but professors; the users page only to admins and unrecognised roles. */
  lemma NavPageRules(u: User)
    ensures var v := NavVisibility(Some(u)).value;
      ("ventas.html" in v <==> !Auth.IsProfesorRole(u.role))
      && ("usuarios.html" in v <==> u.role == RoleAdmin || (u.role != RoleJefeArea && !Auth.IsProfesorRole(u.role)))
      && ("entornos.html" in v <==> u.role != RoleJefeArea)
  {
    NavByRole(u);
  }

  // ----- dashboard -----

  /** The accounts counted as active. */
  function ActiveUsers(users: seq<User>): (n: nat)
    ensures n <= |users|
    ensures n == |users| <==> forall i :: 0 <= i < |users| ==> users[i].active
    ensures n == 0 <==> forall i :: 0 <= i < |users| ==> !users[i].active
  {
    if users == [] then 0
    else (if users[0].active then 1 else 0) + ActiveUsers(users[1..])
  }

  /** The active count adds up over a split of the accounts. */
  lemma {:induction false} ActiveUsersAppend(a: seq<User>, b: seq<User>)
    ensures ActiveUsers(a + b) == ActiveUsers(a) + ActiveUsers(b)
  {
    if a != [] {
      assert (a + b)[1..] == a[1..] + b;
      ActiveUsersAppend(a[1..], b);
    } else {
      assert a + b == b;
    }
  }

  /** The environments the account is responsible for (`responsibleId === currentUser.id`). */
  function UserEnvironments(environments: seq<Environment>, u: User): (n: nat)
    ensures n <= |environments|
    ensures n == 0 <==> forall i :: 0 <= i < |environments| ==> environments[i].responsibleId != Some(u.id)
  {
    CountWhere(environments, (e: Environment) => e.responsibleId == Some(u.id))
  }

  /** The ids of the professor's environments of their own type. */
  function OwnEnvironmentIds(environments: seq<Environment>, u: User, tipo: string): (r: seq<int>)
    ensures forall x :: x in r <==> exists i :: 0 <= i < |environments| && environments[i].id == x
                                        && environments[i].environmentType == tipo && environments[i].responsibleId == Some(u.id)
  {
    if environments == [] then []
    else
      var e := environments[0];
      var rest := OwnEnvironmentIds(environments[1..], u, tipo);
      assert forall i :: 1 <= i < |environments| ==> environments[i] == environments[1..][i - 1];
      if e.environmentType == tipo && e.responsibleId == Some(u.id) then [e.id] + rest else rest
  }

  /**
   * An activity a professor is counted for: of their type, and in one of their environments (by
   * a numeric environment id) or with their name as the teacher, up to case and title.
   */
  predicate CountsForProfessor(a: Activity, envIds: seq<int>, u: User, tipo: string) {
    a.environmentType == tipo
    && ((a.environmentId.Num? && a.environmentId.n in envIds)
        || Environments.NormalizeName(a.responsibleTeacher) == Environments.NormalizeName(FullName(u)))
  }

  /**
   * `userActivities`: for a professor, the activities counted by `CountsForProfessor`; for anyone
   * else the activities whose `userId` is the account's, and activities carry no `userId`.
   */
  function UserActivities(environments: seq<Environment>, activities: seq<Activity>, current: User): (n: nat)
    ensures n <= |activities|
  {
    var who := Some(current);
    if Auth.IsProfesor(who) then
      var tipo := Auth.ProfesorTipo(who).value;
      var envIds := OwnEnvironmentIds(environments, current, tipo);
      CountWhere(activities, (a: Activity) => CountsForProfessor(a, envIds, current, tipo))
    else 0
  }

  /** A professor is counted for an activity exactly when it is of their type and assigned to them by environment or by name. */
  lemma UserActivitiesIff(environments: seq<Environment>, activities: seq<Activity>, current: User)
    requires Auth.IsProfesor(Some(current))
    ensures var tipo := Auth.ProfesorTipo(Some(current)).value;
      (UserActivities(environments, activities, current) == 0) <==>
      forall i :: 0 <= i < |activities| ==>
        !(activities[i].environmentType == tipo
          && ((activities[i].environmentId.Num?
               && exists j :: 0 <= j < |environments| && environments[j].id == activities[i].environmentId.n
                              && environments[j].environmentType == tipo && environments[j].responsibleId == Some(current.id))
              || Environments.NormalizeName(activities[i].responsibleTeacher) == Environments.NormalizeName(FullName(current))))
  {
  }

  /** An activity of the professor's type whose teacher is the professor, written with the title, is counted. */
  lemma TitledTeacherCounted(environments: seq<Environment>, a: Activity, current: User)
    requires Auth.IsProfesor(Some(current))
    requires a.environmentType == Auth.ProfesorTipo(Some(current)).value
    requires current.firstName != [] && !IsSpace(current.firstName[0])
    requires !Environments.StartsWithProf(ToLower(FullName(current)))
    requires a.responsibleTeacher == "Prof. " + FullName(current)
    ensures UserActivities(environments, [a], current) == 1
  {
    var n := FullName(current);
    assert n[0] == current.firstName[0];
    Environments.TitleIgnored(n);
  }

  /**
   * The counts `getDashboardStats` derives from the stored collections for a logged-in
   * account. Today's activities, the month's sales and the account's sales are not part of
   * this model.
   */
  datatype Stats = Stats(activeUsers: nat, environments: nat, userActivities: nat, userEnvironments: nat)

  function DashboardStats(users: seq<User>, environments: seq<Environment>, activities: seq<Activity>, current: User): (r: Stats)
    ensures r.activeUsers <= |users| && r.environments == |environments|
    ensures r.userActivities <= |activities| && r.userEnvironments <= |environments|
    ensures !Auth.IsProfesorRole(current.role) ==> r.userActivities == 0
  {
    Stats(ActiveUsers(users), |environments|, UserActivities(environments, activities, current),
          UserEnvironments(environments, current))
  }

  // ----- stored data -----

  /** `getStoredData`: the parsed value, or the default when the key is absent, empty or does not parse. */
  function StoredOr<T>(stored: Stored<T>, default: T): (r: T)
    ensures stored.Present? ==> r == stored.value
    ensures !stored.Present? ==> r == default
  {
    match stored
    case Present(v) => v
    case _ => default
  }
}
