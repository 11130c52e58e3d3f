/**
 * The records the pages keep in the browser's storage and share with each other: users,
 * teaching environments and the activities recorded in them, plus the form a page submits.
 */
module Records {
  import opened Common
  import opened Text

  /** A submitted form (`FormData` turned into an object): field name to text; a missing key is `undefined`. */
  type Form = map<string, string>

  /** `form[key]`, with a missing key read as the empty text (both are falsy). */
  function Field(form: Form, key: string): (v: string)
    ensures key in form ==> v == form[key]
    ensures key !in form ==> v == ""
  {
    if key in form then form[key] else ""
  }

  /** A required field is missing when it is absent, empty, or white space only. */
  predicate Missing(form: Form, key: string) {
    IsBlank(Field(form, key))
  }

  /** The fields of `fields`, in order, that `form` is missing. */
  function MissingOf(form: Form, fields: seq<string>): (r: seq<string>)
    ensures |r| <= |fields|
  {
    if fields == [] then []
    else
      var last := fields[|fields| - 1];
      MissingOf(form, fields[..|fields| - 1]) + (if Missing(form, last) then [last] else [])
  }

  /** No field is flagged exactly when every listed field is present and not blank. */
  lemma {:induction false} MissingOfEmpty(form: Form, fields: seq<string>)
    ensures MissingOf(form, fields) == [] <==> forall i :: 0 <= i < |fields| ==> !Missing(form, fields[i])
  {
    if fields != [] {
      var init := fields[..|fields| - 1];
      MissingOfEmpty(form, init);
      assert forall i :: 0 <= i < |init| ==> init[i] == fields[i];
    }
  }

  /**
   * The required-field loop shared by the form validators: every listed field that is absent or
   * blank is flagged (in order), and the form is valid when none is.
   */
  method CheckRequired(form: Form, fields: seq<string>) returns (valid: bool, flagged: seq<string>)
    ensures flagged == MissingOf(form, fields)
    ensures valid <==> forall i :: 0 <= i < |fields| ==> !Missing(form, fields[i])
  {
    valid := true;
    flagged := [];
    var i := 0;
    while i < |fields|
      invariant 0 <= i <= |fields|
      invariant flagged == MissingOf(form, fields[..i])
      invariant valid <==> flagged == []
    {
      assert fields[..i + 1][..i] == fields[..i];
      if Missing(form, fields[i]) {
        flagged := flagged + [fields[i]];
        valid := false;
      }
      i := i + 1;
    }
    assert fields[..i] == fields;
    MissingOfEmpty(form, fields);
  }

  /** A field of a stored record that holds a number in seeded data and a text when it came from a form. */
  datatype Value = Num(n: int) | Text(s: string)

  /** `String(v)`. */
  function ValueText(v: Value): (r: string)
    ensures v.Text? ==> r == v.s
    ensures v.Num? ==> ParseInt(r) == Some(v.n)
  {
    match v
    case Num(n) =>
      ParseIntOfIntToString(n);
      IntToString(n)
    case Text(s) => s
  }

  const RoleAdmin := "administrador"
  const RoleJefeArea := "jefe_area"
  const RoleProfesorAnimal := "profesor_animal"
  const RoleProfesorVegetal := "profesor_vegetal"

  /**
   * An account. Fields that a record may lack (the seeded accounts have no document) are the
   * empty text.
   */
  datatype User = User(
    id: int,
    username: string,
    password: string,
    email: string,
    firstName: string,
    lastName: string,
    document: string,
    role: string,
    securityQuestion: string,
    securityAnswer: string,
    active: bool,
    createdAt: string,
    updatedAt: string)

  /** `${firstName} ${lastName}`. */
  function FullName(u: User): (r: string)
    ensures r == u.firstName + [' '] + u.lastName
  {
    u.firstName + " " + u.lastName
  }

  /**
   * A teaching environment (a garden, a nursery, a farm unit). `responsibleId` is `None` when
   * the record has no usable id (absent, `null` or `NaN`).
   */
  datatype Environment = Environment(
    id: int,
    environmentName: string,
    environmentType: string,
    responsibleId: Option<int>,
    responsibleName: string,
    responsibleTeacher: string,
    year: string,
    division: string,
    group: string,
    observations: string,
    createdAt: string,
    updatedAt: string)

  /** `env.responsibleId` is truthy: present and not 0. */
  predicate HasResponsible(e: Environment) {
    e.responsibleId.Some? && e.responsibleId.value != 0
  }

  /**
   * An activity recorded in an environment. `environmentId` and `duration` are numbers in
   * seeded records and texts in records built from a form; `environmentName` is absent when
   * the form named no known environment.
   */
  datatype Activity = Activity(
    id: int,
    environmentId: Value,
    environmentName: Option<string>,
    environmentType: string,
    responsibleTeacher: string,
    year: string,
    division: string,
    group: string,
    activityDate: string,
    activityTime: string,
    duration: Value,
    activityTitle: string,
    activityDescription: string,
    observations: string,
    createdAt: string,
    updatedAt: string)

  /** The ids of a collection, in order (`records.map(r => r.id)`). */
  function UserIds(s: seq<User>): seq<int> {
    MapSeq(s, (u: User) => u.id)
  }

  function EnvironmentIds(s: seq<Environment>): seq<int> {
    MapSeq(s, (e: Environment) => e.id)
  }

  function ActivityIds(s: seq<Activity>): seq<int> {
    MapSeq(s, (a: Activity) => a.id)
  }
}
