/**
 * Teaching environments: the professor's view of them, the create/edit form with its
 * case-insensitive unique-name rule, delete, and the migration that fills in a missing
 * responsible account.
 */
module Environments {
  import opened Common
  import opened Text
  import opened Records
  import Auth

  // ----- names -----

  /** The text starts with `prof`. */
  predicate StartsWithProf(t: string) {
    |t| >= 4 && t[..4] == "prof"
  }

  /** The title pattern's replacement on lower-cased text: a leading `prof`, an optional dot and the white space around them go. */
  function StripProf(t: string): (r: string)
    ensures !StartsWithProf(TrimStart(t)) ==> r == t
  {
    var u := TrimStart(t);
    if StartsWithProf(u) then
      var v := u[4..];
      TrimStart(if v != [] && v[0] == '.' then v[1..] else v)
    else t
  }

  /** `normalizeName`: lower-cased, without a leading `prof`/`prof.` title, trimmed. */
  function NormalizeName(s: string): (r: string)
  {
    Trim(StripProf(ToLower(s)))
  }

  /** No character changes when lower-cased. */
  predicate IsLower(s: string) {
    forall i :: 0 <= i < |s| ==> LowerChar(s[i]) == s[i]
  }

  lemma LowerSlice(s: string, i: nat, j: nat)
    requires IsLower(s) && i <= j <= |s|
    ensures IsLower(s[i..j])
  {
    assert forall k :: 0 <= k < j - i ==> s[i..j][k] == s[i + k];
  }

  lemma LowerFixed(r: string)
    requires IsLower(r)
    ensures ToLower(r) == r
  {
  }

  /** Stripping the title keeps a lower-case text lower-case. */
  lemma StripKeepsLower(l: string)
    requires IsLower(l)
    ensures IsLower(StripProf(l))
  {
    var u := TrimStart(l);
    LowerSlice(l, LeadingSpaces(l), |l|);
    if StartsWithProf(u) {
      LowerSlice(u, 4, |u|);
      var v := u[4..];
      var w := if v != [] && v[0] == '.' then v[1..] else v;
      if v != [] && v[0] == '.' {
        LowerSlice(v, 1, |v|);
      }
      LowerSlice(w, LeadingSpaces(w), |w|);
    }
  }

  /** A normalised name is lower-case and starts and ends with no white space. */
  lemma NormalizedShape(s: string)
    ensures var r := NormalizeName(s);
      ToLower(r) == r && (r == [] || (!IsSpace(r[0]) && !IsSpace(r[|r| - 1])))
  {
    var l := ToLower(s);
    assert IsLower(l) by {
      forall i | 0 <= i < |l|
        ensures LowerChar(l[i]) == l[i]
      {
        assert l[i] == LowerChar(s[i]);
      }
    }
    StripKeepsLower(l);
    TrimmedLower(StripProf(l));
    LowerFixed(NormalizeName(s));
  }

  /** Trimming a lower-case text keeps it lower-case and leaves no white space at either end. */
  lemma TrimmedLower(t: string)
    requires IsLower(t)
    ensures var r := Trim(t); IsLower(r) && (r == [] || (!IsSpace(r[0]) && !IsSpace(r[|r| - 1])))
  {
    var m := TrimStart(t);
    LowerSlice(t, LeadingSpaces(t), |t|);
    var r := TrimEnd(m);
    LowerSlice(m, 0, |m| - TrailingSpaces(m));
    if r != [] {
      assert r[0] == m[0];
      assert r[|r| - 1] == m[|m| - TrailingSpaces(m) - 1];
    }
  }

  lemma ToLowerConcat(a: string, b: string)
    ensures ToLower(a + b) == ToLower(a) + ToLower(b)
  {
  }

  /** After a leading `prof`, one dot and then the white space go. */
  lemma StripAfterProf(rest: string)
    ensures StripProf("prof" + rest) == TrimStart(if rest != [] && rest[0] == '.' then rest[1..] else rest)
  {
    var t := "prof" + rest;
    assert !IsSpace(t[0]);
    assert TrimStart(t) == t;
    assert t[..4] == "prof";
    assert t[4..] == rest;
  }

  /** The title is stripped even when it begins a longer word: `profesora ana` becomes `esora ana`. */
  lemma LongerWordStripped(w: string)
    requires w != [] && !IsSpace(w[0]) && w[0] != '.'
    ensures StripProf("prof" + w) == w
  {
    StripAfterProf(w);
  }

  lemma LowerTitled(n: string)
    ensures ToLower("Prof. " + n) == "prof" + (". " + ToLower(n))
  {
    assert ToLower("Prof. ") == "prof. " by {
      assert ToLower("Prof. ")[0] == LowerChar('P');
    }
    ToLowerConcat("Prof. ", n);
  }

  lemma StripTitled(ln: string)
    requires ln == [] || !IsSpace(ln[0])
    ensures StripProf("prof" + (". " + ln)) == ln
  {
    StripAfterProf(". " + ln);
    assert (". " + ln)[1..] == " " + ln;
    assert LeadingSpaces(" " + ln) == 1 by {
      assert (" " + ln)[1..] == ln;
    }
  }

  /** A name written with the title `Prof. ` normalises like the bare name. */
  lemma TitleIgnored(n: string)
    requires n == [] || !IsSpace(n[0])
    requires !StartsWithProf(ToLower(n))
    ensures NormalizeName("Prof. " + n) == NormalizeName(n)
  {
    var ln := ToLower(n);
    LowerTitled(n);
    if ln != [] {
      assert ln[0] == LowerChar(n[0]);
    }
    StripTitled(ln);
    assert TrimStart(ln) == ln;
    assert StripProf(ln) == ln;
  }

  // ----- what a professor sees -----

  /** `normalizeName(name) === normalizeName(other)` with `other` present. */
  predicate SameName(name: string, other: string) {
    other != "" && NormalizeName(name) == NormalizeName(other)
  }

  /** The environment is assigned to the account: by its id, or by the normalised responsible teacher or responsible name. */
  predicate AssignedTo(e: Environment, u: User) {
    (HasResponsible(e) && e.responsibleId.value == u.id)
    || SameName(FullName(u), e.responsibleTeacher)
    || SameName(FullName(u), e.responsibleName)
  }

  /** The environments listed on the page: a professor sees those of their kind assigned to them; everyone else sees all. */
  function Visible(environments: seq<Environment>, current: Option<User>): (r: seq<Environment>)
    ensures !Auth.IsProfesor(current) ==> r == environments
    ensures Auth.IsProfesor(current) ==>
              (forall i :: 0 <= i < |r| ==>
                 r[i] in environments && Some(r[i].environmentType) == Auth.ProfesorTipo(current) && AssignedTo(r[i], current.value))
              && (forall i :: 0 <= i < |environments| ==>
                    (Some(environments[i].environmentType) == Auth.ProfesorTipo(current) && AssignedTo(environments[i], current.value))
                    ==> environments[i] in r)
  {
    if Auth.IsProfesor(current) then
      Filter(environments, (e: Environment) => Some(e.environmentType) == Auth.ProfesorTipo(current) && AssignedTo(e, current.value))
    else environments
  }

  /** A professor never sees an environment of the other kind, assigned to them or not. */
  lemma ProfessorSeesOwnKind(environments: seq<Environment>, u: User, e: Environment)
    requires u.role == RoleProfesorAnimal
    requires e in Visible(environments, Some(u))
    ensures e.environmentType == "animal"
  {
    var r := Visible(environments, Some(u));
    var i :| 0 <= i < |r| && r[i] == e;
  }

  /** `getEnvironmentsByType`. */
  function ByType(environments: seq<Environment>, environmentType: string): (r: seq<Environment>)
    ensures forall i :: 0 <= i < |r| ==> r[i].environmentType == environmentType
    ensures multiset(r) <= multiset(environments)
    ensures forall e :: e in multiset(environments) && e.environmentType == environmentType ==> multiset(r)[e] == multiset(environments)[e]
  {
    FilterMultiset(environments, (e: Environment) => e.environmentType == environmentType);
    Filter(environments, (e: Environment) => e.environmentType == environmentType)
  }

  // ----- the form -----

  const EnvironmentRequired: seq<string> := ["environmentName", "environmentType", "responsibleTeacher", "year", "division", "group"]

  /** The option picked in the responsible-teacher selector: its value (an account id) and its text. */
  datatype TeacherChoice = TeacherChoice(value: string, text: string)

  /** The submitted data once the selector is mapped: the chosen option's text becomes the responsible name and teacher. */
  function WithTeacher(form: Form, chosen: Option<TeacherChoice>): (r: Form)
    ensures Field(r, "responsibleTeacher") == Field(r, "responsibleName") == (if chosen.Some? then chosen.value.text else "")
    ensures r.Keys == form.Keys + {"responsibleName", "responsibleTeacher"}
    ensures forall k :: k in form && k != "responsibleName" && k != "responsibleTeacher" ==> r[k] == form[k]
  {
    var name := if chosen.Some? then chosen.value.text else "";
    form["responsibleName" := name]["responsibleTeacher" := name]
  }

  /** Another environment — not the one being edited — already has this name, ignoring case. */
  predicate NameTaken(environments: seq<Environment>, name: string, editing: Option<Environment>) {
    exists i :: 0 <= i < |environments| && EqualsIgnoreCase(environments[i].environmentName, name)
      && (editing.None? || environments[i].id != editing.value.id)
  }

  function NameTakenAt(environments: seq<Environment>, name: string, editing: Option<Environment>): (r: bool)
    ensures r <==> NameTaken(environments, name, editing)
  {
    FindIndex(environments, (e: Environment) => EqualsIgnoreCase(e.environmentName, name)
      && (editing.None? || e.id != editing.value.id)).Some?
  }

  /** `validateEnvironmentForm`'s verdict on the mapped data. */
  predicate FormValid(data: Form, environments: seq<Environment>, editing: Option<Environment>) {
    (forall i :: 0 <= i < |EnvironmentRequired| ==> !Missing(data, EnvironmentRequired[i]))
    && !(Field(data, "environmentName") != "" && NameTaken(environments, Field(data, "environmentName"), editing))
  }

  /** The record the form builds, with the given id and timestamps. */
  function FromForm(data: Form, chosen: Option<TeacherChoice>, id: int, createdAt: string, updatedAt: string): (r: Environment)
    ensures r.id == id && r.createdAt == createdAt && r.updatedAt == updatedAt
    ensures r.environmentName == Field(data, "environmentName")
    ensures r.responsibleId == (if chosen.Some? then ParseInt(chosen.value.value) else None)
  {
    Environment(id, Field(data, "environmentName"), Field(data, "environmentType"),
      if chosen.Some? then ParseInt(chosen.value.value) else None,
      Field(data, "responsibleName"), Field(data, "responsibleTeacher"), Field(data, "year"),
      Field(data, "division"), Field(data, "group"), Field(data, "observations"), createdAt, updatedAt)
  }

  /**
   * `handleEnvironmentSubmit`: a valid form creates an environment at the end with the next id,
   * or, while editing, replaces the first record with the edited id (keeping id and creation time).
   */
  function Submit(environments: seq<Environment>, editing: Option<Environment>, form: Form, chosen: Option<TeacherChoice>, now: string)
    : (r: seq<Environment>)
    ensures !FormValid(WithTeacher(form, chosen), environments, editing) ==> r == environments
  {
    var data := WithTeacher(form, chosen);
    if !FormValid(data, environments, editing) then environments
    else if editing.Some? then
      match FindIndex(environments, (e: Environment) => e.id == editing.value.id)
      case None => environments
      case Some(k) => environments[k := FromForm(data, chosen, editing.value.id, editing.value.createdAt, now)]
    else environments + [FromForm(data, chosen, NextId(EnvironmentIds(environments)), now, now)]
  }

  /** A new environment is appended with an id above every existing one. */
  lemma SubmitCreates(environments: seq<Environment>, form: Form, chosen: Option<TeacherChoice>, now: string)
    requires FormValid(WithTeacher(form, chosen), environments, None)
    ensures var r := Submit(environments, None, form, chosen, now);
      |r| == |environments| + 1 && r[..|environments|] == environments
      && r[|environments|] == FromForm(WithTeacher(form, chosen), chosen, NextId(EnvironmentIds(environments)), now, now)
      && forall i :: 0 <= i < |environments| ==> environments[i].id < r[|environments|].id
  {
  }

  /** An edit replaces only the first record with the edited id, keeping that id and its creation time. */
  lemma SubmitEdits(environments: seq<Environment>, editing: Environment, form: Form, chosen: Option<TeacherChoice>, now: string, k: nat)
    requires FormValid(WithTeacher(form, chosen), environments, Some(editing))
    requires k < |environments| && environments[k].id == editing.id
    requires forall j :: 0 <= j < k ==> environments[j].id != editing.id
    ensures var r := Submit(environments, Some(editing), form, chosen, now);
      |r| == |environments| && r[k].id == editing.id && r[k].createdAt == editing.createdAt
      && forall j :: 0 <= j < |environments| && j != k ==> r[j] == environments[j]
  {
    var found := FindIndex(environments, (e: Environment) => e.id == editing.id);
    assert found == Some(k);
  }

  /** No two environments share an id, and no two share a name up to case. */
  predicate Distinguished(environments: seq<Environment>) {
    (forall i, j :: 0 <= i < j < |environments| ==> environments[i].id != environments[j].id)
    && (forall i, j :: 0 <= i < j < |environments| ==>
          !EqualsIgnoreCase(environments[i].environmentName, environments[j].environmentName))
  }

  /** Submitting keeps ids and names (up to case) unique. */
  lemma SubmitKeepsDistinguished(environments: seq<Environment>, editing: Option<Environment>, form: Form,
                                 chosen: Option<TeacherChoice>, now: string)
    requires Distinguished(environments)
    ensures Distinguished(Submit(environments, editing, form, chosen, now))
  {
    var data := WithTeacher(form, chosen);
    if FormValid(data, environments, editing) {
      assert !Missing(data, EnvironmentRequired[0]);
      var name := Field(data, "environmentName");
      assert name != "";
      if editing.Some? {
        var found := FindIndex(environments, (e: Environment) => e.id == editing.value.id);
        if found.Some? {
          var k := found.value;
          forall j | 0 <= j < |environments| && j != k
            ensures !EqualsIgnoreCase(environments[j].environmentName, name)
          {
            assert environments[j].id != editing.value.id;
          }
          ReplaceKeepsDistinguished(environments, k, FromForm(data, chosen, editing.value.id, editing.value.createdAt, now));
        }
      } else {
        var x := FromForm(data, chosen, NextId(EnvironmentIds(environments)), now, now);
        SubmitCreates(environments, form, chosen, now);
        AppendKeepsDistinguished(environments, x);
      }
    }
  }

  /** Replacing record `k` by one with its id and a name no other record has keeps the list distinguished. */
  lemma ReplaceKeepsDistinguished(environments: seq<Environment>, k: nat, x: Environment)
    requires Distinguished(environments) && k < |environments| && x.id == environments[k].id
    requires forall j :: 0 <= j < |environments| && j != k ==> !EqualsIgnoreCase(environments[j].environmentName, x.environmentName)
    ensures Distinguished(environments[k := x])
  {
  }

  /** Appending a record whose id and name no record has keeps the list distinguished. */
  lemma AppendKeepsDistinguished(environments: seq<Environment>, x: Environment)
    requires Distinguished(environments)
    requires forall j :: 0 <= j < |environments| ==> environments[j].id != x.id
    requires forall j :: 0 <= j < |environments| ==> !EqualsIgnoreCase(environments[j].environmentName, x.environmentName)
    ensures Distinguished(environments + [x])
  {
    var r := environments + [x];
    assert forall i :: 0 <= i < |environments| ==> r[i] == environments[i];
  }

  /** `deleteEnvironment`: with the user's confirmation, every environment with that id is removed and the rest kept in order. */
  function Delete(environments: seq<Environment>, id: int, confirmed: bool): (r: seq<Environment>)
    ensures !confirmed ==> r == environments
    ensures confirmed ==> forall i :: 0 <= i < |r| ==> r[i].id != id
    ensures multiset(r) <= multiset(environments)
    ensures forall e :: e in multiset(environments) && e.id != id ==> multiset(r)[e] == multiset(environments)[e]
  {
    if confirmed && FindIndex(environments, (e: Environment) => e.id == id).Some? then
      FilterMultiset(environments, (e: Environment) => e.id != id);
      Filter(environments, (e: Environment) => e.id != id)
    else environments
  }

  // ----- migration -----

  /** The professor role for a kind of environment, none for any other kind. */
  function ProfessorRole(environmentType: string): (r: Option<string>)
    ensures r.Some? <==> environmentType in ["animal", "vegetal"]
  {
    if environmentType == "animal" then Some(RoleProfesorAnimal)
    else if environmentType == "vegetal" then Some(RoleProfesorVegetal)
    else None
  }

  /** The name `findUserByName` looks up: the responsible name, else the responsible teacher. */
  function DisplayName(e: Environment): string {
    if e.responsibleName != "" then e.responsibleName else e.responsibleTeacher
  }

  /** The first account with that role. */
  function FirstWithRole(users: seq<User>, role: string): (r: Option<nat>)
    ensures r.Some? ==> r.value < |users| && users[r.value].role == role
    ensures r.None? ==> forall i :: 0 <= i < |users| ==> users[i].role != role
  {
    if users == [] then None
    else if users[0].role == role then Some(0)
    else match FirstWithRole(users[1..], role)
      case None => None
      case Some(k) => Some(k + 1)
  }

  /** `findUserByName`: the first account whose normalised full name is the normalised display name. */
  function ByName(e: Environment, users: seq<User>): (r: Option<nat>)
    ensures r.Some? ==> r.value < |users| && NormalizeName(FullName(users[r.value])) == NormalizeName(DisplayName(e))
                        && forall j :: 0 <= j < r.value ==> NormalizeName(FullName(users[j])) != NormalizeName(DisplayName(e))
    ensures r.None? ==> forall j :: 0 <= j < |users| ==> NormalizeName(FullName(users[j])) != NormalizeName(DisplayName(e))
  {
    var name := NormalizeName(DisplayName(e));
    FindIndex(users, (u: User) => NormalizeName(FullName(u)) == name)
  }

  /** `findProfessorByType`: the first professor of the environment's kind. */
  function ByKind(e: Environment, users: seq<User>): (r: Option<nat>)
    ensures r.Some? ==> r.value < |users| && ProfessorRole(e.environmentType).Some? && users[r.value].role == ProfessorRole(e.environmentType).value
    ensures r.None? && ProfessorRole(e.environmentType).Some? ==>
              forall i :: 0 <= i < |users| ==> users[i].role != ProfessorRole(e.environmentType).value
  {
    if ProfessorRole(e.environmentType).None? then None
    else FirstWithRole(users, ProfessorRole(e.environmentType).value)
  }

  /** The account an environment without a responsible id is given: a name match first, else the first professor of its kind. */
  function Assignee(e: Environment, users: seq<User>): (r: Option<nat>)
    ensures r.Some? ==> r.value < |users|
    ensures ByName(e, users).Some? ==> r == ByName(e, users)
    ensures ByName(e, users).None? ==> r == ByKind(e, users)
  {
    if ByName(e, users).Some? then ByName(e, users) else ByKind(e, users)
  }

  /** One environment after migration: unchanged when it has a responsible id or nobody fits; otherwise assigned. */
  function MigrateOne(e: Environment, users: seq<User>): (r: Environment)
    ensures HasResponsible(e) || Assignee(e, users).None? ==> r == e
    ensures r.id == e.id && r.environmentName == e.environmentName && r.environmentType == e.environmentType
  {
    if HasResponsible(e) then e
    else match Assignee(e, users)
      case None => e
      case Some(k) =>
        var u := users[k];
        e.(responsibleId := Some(u.id), responsibleName := FullName(u),
           responsibleTeacher := if e.responsibleTeacher == "" then FullName(u) else e.responsibleTeacher)
  }

  /** An assigned environment names its account; the name match wins over the fallback to the first professor of the kind. */
  lemma MigrateOneAssigns(e: Environment, users: seq<User>)
    requires !HasResponsible(e) && Assignee(e, users).Some?
    ensures var u := users[Assignee(e, users).value];
      MigrateOne(e, users).responsibleId == Some(u.id) && MigrateOne(e, users).responsibleName == FullName(u)
      && (NormalizeName(FullName(u)) == NormalizeName(DisplayName(e))
          || (ProfessorRole(e.environmentType).Some? && u.role == ProfessorRole(e.environmentType).value))
  {
    var k := Assignee(e, users).value;
    var r := MigrateOne(e, users);
    assert r == e.(responsibleId := Some(users[k].id), responsibleName := FullName(users[k]),
                   responsibleTeacher := if e.responsibleTeacher == "" then FullName(users[k]) else e.responsibleTeacher);
    if ByName(e, users).None? {
      assert ByKind(e, users) == Some(k);
    }
  }

  /** With account ids other than 0, migrating a second time changes nothing. */
  lemma MigrateOneIdempotent(e: Environment, users: seq<User>)
    requires forall i :: 0 <= i < |users| ==> users[i].id != 0
    ensures MigrateOne(MigrateOne(e, users), users) == MigrateOne(e, users)
  {
  }

  function MigrateAll(environments: seq<Environment>, users: seq<User>): (r: seq<Environment>)
    ensures |r| == |environments| && forall i :: 0 <= i < |environments| ==> r[i] == MigrateOne(environments[i], users)
  {
    if environments == [] then [] else [MigrateOne(environments[0], users)] + MigrateAll(environments[1..], users)
  }

  /** The environment lacks a responsible id and has someone to receive it. */
  predicate NeedsMigration(e: Environment, users: seq<User>) {
    !HasResponsible(e) && Assignee(e, users).Some?
  }

  /** `NeedsMigration` with the accounts fixed. */
  function NeedsMigrationWith(users: seq<User>): Environment -> bool {
    (e: Environment) => NeedsMigration(e, users)
  }

  /** The `changed` flag of the migration: some environment of the list needs migration. */
  predicate Migrates(environments: seq<Environment>, users: seq<User>) {
    AnyOf(environments, NeedsMigrationWith(users))
  }

  /** One more environment migrates the prefix exactly when it needs migration itself. */
  lemma MigratesStep(environments: seq<Environment>, i: nat, users: seq<User>)
    requires i < |environments|
    ensures Migrates(environments[..i + 1], users) <==> Migrates(environments[..i], users) || NeedsMigration(environments[i], users)
  {
    AnyOfStep(environments, i, NeedsMigrationWith(users));
  }

  /** The first `i` environments of `orig` are migrated in `current` and the rest are as they were. */
  predicate MigratedUpTo(current: seq<Environment>, orig: seq<Environment>, i: nat, users: seq<User>) {
    i <= |current| == |orig|
    && (forall j :: 0 <= j < i ==> current[j] == MigrateOne(orig[j], users))
    && (forall j :: i <= j < |current| ==> current[j] == orig[j])
  }

  /** Putting the next environment's migration in its place extends the migrated prefix. */
  lemma MigratedStep(before: seq<Environment>, after: seq<Environment>, orig: seq<Environment>, i: nat, users: seq<User>)
    requires MigratedUpTo(before, orig, i, users) && i < |orig|
    requires after == before[i := MigrateOne(orig[i], users)]
    ensures MigratedUpTo(after, orig, i + 1, users)
  {
  }

  /** The environment at the loop's position is still the original one. */
  lemma UnmigratedAt(current: seq<Environment>, orig: seq<Environment>, i: nat, users: seq<User>)
    requires MigratedUpTo(current, orig, i, users) && i < |orig|
    ensures |current| == |orig| && current[i] == orig[i]
  {
  }

  /** With every environment migrated, the list is `MigrateAll` of the original. */
  lemma MigratedDone(current: seq<Environment>, orig: seq<Environment>, users: seq<User>)
    requires MigratedUpTo(current, orig, |orig|, users)
    ensures current == MigrateAll(orig, users)
  {
    var target := MigrateAll(orig, users);
    assert forall j :: 0 <= j < |current| ==> current[j] == target[j];
  }

  /** `Migrates` is the existence of an environment needing migration. */
  lemma MigratesIff(environments: seq<Environment>, users: seq<User>)
    ensures Migrates(environments, users) <==> exists i :: 0 <= i < |environments| && NeedsMigration(environments[i], users)
  {
    AnyOfIff(environments, NeedsMigrationWith(users));
  }

  /** Without accounts nothing is migrated. */
  lemma {:induction false} NoAccountsNoMigration(es: seq<Environment>)
    ensures MigrateAll(es, []) == es && !Migrates(es, [])
  {
    if es != [] {
      NoAccountsNoMigration(es[..|es| - 1]);
    }
  }

  // ----- the seed -----

  function SeedEnvironments(now: string): (r: seq<Environment>)
    ensures EnvironmentIds(r) == [1, 2, 3]
  {
    [ Environment(1, "Huerta Principal", "vegetal", Some(4), "María González", "Prof. María González", "3", "A", "Grupo 1",
        "Huerta destinada al cultivo de hortalizas de estación", now, now),
      Environment(2, "Vivero Escolar", "vegetal", Some(4), "María González", "Prof. María González", "2", "B", "Grupo 2",
        "Espacio para la producción de plantines y plantas ornamentales", now, now),
      Environment(3, "Granja Avícola", "animal", Some(3), "Ana Martínez", "Prof. Ana Martínez", "4", "A", "Grupo 3",
        "Cría y manejo de aves de corral", now, now) ]
  }

  // ----- the page -----

  class EnvironmentsModule {
    var environments: seq<Environment>
    /** The environment being edited; none while creating (`isEditing` is its presence). */
    var currentEnvironment: Option<Environment>

    /** `loadEnvironments`: stored environments are migrated with the stored accounts; with none stored, the three sample ones. */
    constructor (saved: Option<seq<Environment>>, users: Stored<seq<User>>, now: string)
      ensures environments == (if saved.Some? then (if users.Present? then MigrateAll(saved.value, users.value) else saved.value)
                               else SeedEnvironments(now))
      ensures currentEnvironment == None
    {
      environments := if saved.Some? then saved.value else SeedEnvironments(now);
      currentEnvironment := None;
      new;
      if saved.Some? {
        var changed := MigrateEnvironmentsUsers(users);
      }
    }

    /**
     * `migrateEnvironmentsUsers`: each environment without a responsible id is assigned in place;
     * `changed` says whether one was. Unreadable accounts leave everything as it was; absent ones are no accounts.
     */
    method MigrateEnvironmentsUsers(users: Stored<seq<User>>) returns (changed: bool)
      modifies this
      ensures users.Unreadable? || users.Absent? ==> environments == old(environments) && !changed
      ensures users.Present? ==> environments == MigrateAll(old(environments), users.value)
                                 && (changed <==> Migrates(old(environments), users.value))
      ensures currentEnvironment == old(currentEnvironment)
    {
      changed := false;
      if users.Unreadable? {
        return;
      }
      var accounts := if users.Present? then users.value else [];
      NoAccountsNoMigration(environments);
      changed := AssignResponsibles(accounts);
    }

    /** The `forEach` of the migration: the environments are migrated one by one, in place. */
    method AssignResponsibles(accounts: seq<User>) returns (changed: bool)
      modifies this
      ensures environments == MigrateAll(old(environments), accounts)
      ensures changed <==> Migrates(old(environments), accounts)
      ensures currentEnvironment == old(currentEnvironment)
    {
      changed := false;
      ghost var orig := environments;
      var i := 0;
      while i < |environments|
        invariant MigratedUpTo(environments, orig, i, accounts)
        invariant currentEnvironment == old(currentEnvironment)
        invariant changed <==> Migrates(orig[..i], accounts)
      {
        UnmigratedAt(environments, orig, i, accounts);
        MigratesStep(orig, i, accounts);
        ghost var before := environments;
        var migrated := AssignOne(i, accounts);
        changed := changed || migrated;
        MigratedStep(before, environments, orig, i, accounts);
        i := i + 1;
      }
      assert orig[..i] == orig;
      MigratedDone(environments, orig, accounts);
    }

    /**
     * The `forEach` callback for the environment at `i`: without a responsible id and with an
     * account to assign, it is given that account; otherwise it is left alone.
     */
    method AssignOne(i: nat, accounts: seq<User>) returns (migrated: bool)
      requires i < |environments|
      modifies this
      ensures environments == old(environments)[i := MigrateOne(old(environments)[i], accounts)]
      ensures migrated <==> NeedsMigration(old(environments)[i], accounts)
      ensures currentEnvironment == old(currentEnvironment)
    {
      var env := environments[i];
      migrated := false;
      if !HasResponsible(env) {
        var candidate := Assignee(env, accounts);
        if candidate.Some? {
          environments := environments[i := MigrateOne(env, accounts)];
          migrated := true;
        }
      }
      assert environments == old(environments)[i := MigrateOne(env, accounts)];
    }

    /** `showEnvironmentModal`: the environment to edit, or none to create. */
    method ShowEnvironmentModal(environment: Option<Environment>, current: Option<User>)
      modifies this
      ensures currentEnvironment == (if Auth.IsJefeArea(current) || Auth.IsProfesor(current) then old(currentEnvironment) else environment)
      ensures environments == old(environments)
    {
      if Auth.IsJefeArea(current) || Auth.IsProfesor(current) {
        return;
      }
      currentEnvironment := environment;
    }

    /** `validateEnvironmentForm`: the required-field loop, then the name rule. */
    static method ValidateEnvironmentForm(data: Form, environments: seq<Environment>, editing: Option<Environment>) returns (valid: bool)
      ensures valid <==> FormValid(data, environments, editing)
    {
      var flagged;
      valid, flagged := CheckRequired(data, EnvironmentRequired);
      if Field(data, "environmentName") != "" && NameTakenAt(environments, Field(data, "environmentName"), editing) {
        valid := false;
      }
    }

    /** `handleEnvironmentSubmit`; a successful submit closes the form. */
    method HandleEnvironmentSubmit(form: Form, chosen: Option<TeacherChoice>, now: string) returns (saved: bool)
      modifies this
      ensures saved <==> FormValid(WithTeacher(form, chosen), old(environments), old(currentEnvironment))
      ensures environments == Submit(old(environments), old(currentEnvironment), form, chosen, now)
      ensures currentEnvironment == (if saved then None else old(currentEnvironment))
    {
      var data := WithTeacher(form, chosen);
      saved := ValidateEnvironmentForm(data, environments, currentEnvironment);
      if !saved {
        return;
      }
      if currentEnvironment.Some? {
        var editing := currentEnvironment.value;
        var index := FindIndex(environments, (e: Environment) => e.id == editing.id);
        if index.Some? {
          environments := environments[index.value := FromForm(data, chosen, editing.id, editing.createdAt, now)];
        }
      } else {
        environments := environments + [FromForm(data, chosen, NextId(EnvironmentIds(environments)), now, now)];
      }
      currentEnvironment := None;
    }

    /** `deleteEnvironment`. */
    method DeleteEnvironment(id: int, confirmed: bool)
      modifies this
      ensures environments == Delete(old(environments), id, confirmed)
      ensures currentEnvironment == old(currentEnvironment)
    {
      environments := Delete(environments, id, confirmed);
    }
  }
}
