/**
 * The activity register: a validated form records a new activity at the head of the list, an
 * edit overlays the submitted fields on the activity being edited, and a confirmed delete drops
 * the records with that id.
 */
module Activities {
  import opened Common
  import opened Text
  import opened Records

  /** The eleven fields the registration form must fill. */
  const ActivityRequired: seq<string> :=
    ["environmentId", "environmentType", "responsibleTeacher", "year", "division", "group",
     "activityDate", "activityTime", "duration", "activityTitle", "activityDescription"]

  /**
   * A filled date later than today. Dates are ISO `yyyy-mm-dd` texts and `today` is today's date
   * in that form, so a later day is exactly a lexicographically greater text.
   */
  predicate FutureDate(form: Form, today: string) {
    Field(form, "activityDate") != "" && LexLess(today, Field(form, "activityDate"))
  }

  /** A filled duration that reads as a number outside [15, 480] minutes; one that does not read as a number passes. */
  predicate DurationOutOfRange(form: Form) {
    Field(form, "duration") != ""
    && ParseInt(Field(form, "duration")).Some?
    && (ParseInt(Field(form, "duration")).value < 15 || ParseInt(Field(form, "duration")).value > 480)
  }

  /** `validateActivityForm`'s verdict. */
  predicate FormValid(form: Form, today: string) {
    (forall i :: 0 <= i < |ActivityRequired| ==> !Missing(form, ActivityRequired[i]))
    && !FutureDate(form, today)
    && !DurationOutOfRange(form)
  }

  /**
   * What a valid form guarantees about the record built from it: every required field is non-empty
   * once trimmed, the date is not after today, and a numeric duration lies in [15, 480].
   */
  lemma ValidFormGuarantees(form: Form, today: string)
    requires FormValid(form, today)
    ensures forall i :: 0 <= i < |ActivityRequired| ==> Trim(Field(form, ActivityRequired[i])) != ""
    ensures LexLeq(Field(form, "activityDate"), today)
    ensures ParseInt(Field(form, "duration")).Some? ==>
              15 <= ParseInt(Field(form, "duration")).value <= 480
  {
    forall i | 0 <= i < |ActivityRequired|
      ensures Trim(Field(form, ActivityRequired[i])) != ""
    {
      BlankIffTrimEmpty(Field(form, ActivityRequired[i]));
    }
    assert !Missing(form, ActivityRequired[6]);
    assert !Missing(form, ActivityRequired[8]);
    NotLexLessIff(today, Field(form, "activityDate"));
  }

  /** A blank required field alone makes the form invalid, whatever the rest holds. */
  lemma BlankFieldInvalid(form: Form, today: string, i: nat)
    requires i < |ActivityRequired| && IsBlank(Field(form, ActivityRequired[i]))
    ensures !FormValid(form, today)
  {
  }

  /** A duration entered as a whole number of minutes is refused exactly when it lies outside [15, 480]. */
  lemma DurationBounds(form: Form, minutes: int)
    ensures DurationOutOfRange(form["duration" := IntToString(minutes)]) <==> minutes < 15 || minutes > 480
  {
    ParseIntOfIntToString(minutes);
    assert Field(form["duration" := IntToString(minutes)], "duration") == IntToString(minutes);
  }

  // ----- registering -----

  const SeedDescription1 :=
    "Preparación del terreno y siembra de semillas de tomate en almácigos. Los estudiantes aprendieron sobre la preparación del sustrato y las técnicas de siembra."
  const SeedDescription2 :=
    "Actividad práctica de alimentación de gallinas ponedoras. Se enseñó sobre tipos de alimento, horarios de alimentación y cuidados básicos."

  function SeedActivities(createdAt: string): (r: seq<Activity>)
    ensures |r| == 2 && r[0].id == 1 && r[1].id == 2
  {
    [ Activity(1, Num(1), Some("Huerta Principal"), "vegetal", "Prof. María González", "3", "A", "Grupo 1",
        "2024-01-15", "08:00", Num(120), "Siembra de Tomates",
        SeedDescription1,
        "Excelente participación de los estudiantes", createdAt, createdAt),
      Activity(2, Num(3), Some("Granja Avícola"), "animal", "Prof. Ana Martínez", "4", "A", "Grupo 3",
        "2024-01-16", "09:30", Num(90), "Alimentación y Cuidado de Gallinas",
        SeedDescription2,
        "Se observó mejora en la producción de huevos", createdAt, createdAt) ]
  }

  /** `loadActivities`: the stored list, or the two sample activities. */
  function LoadActivities(saved: Option<seq<Activity>>, now: string): (r: seq<Activity>)
    ensures saved.Some? ==> r == saved.value
    ensures saved.None? ==> ActivityIds(r) == [1, 2]
  {
    if saved.Some? then saved.value else SeedActivities(now)
  }

  /** `generateActivityId`. */
  function GenerateActivityId(activities: seq<Activity>): (r: int)
    ensures r >= 1 && forall i :: 0 <= i < |activities| ==> activities[i].id < r
  {
    NextId(ActivityIds(activities))
  }

  /** The environment the form names: the first one whose id is `parseInt` of the chosen id. */
  function FormEnvironment(environments: seq<Environment>, form: Form): (r: Option<nat>)
    ensures r.Some? ==> r.value < |environments| && ParseInt(Field(form, "environmentId")) == Some(environments[r.value].id)
    ensures r.None? ==> forall j :: 0 <= j < |environments| ==> ParseInt(Field(form, "environmentId")) != Some(environments[j].id)
  {
    FindIndex(environments, (e: Environment) => ParseInt(Field(form, "environmentId")) == Some(e.id))
  }

  /** A form field a record keeps: the submitted value when the form has the key, the earlier one otherwise. */
  function Pick(form: Form, key: string, prev: string): (r: string)
    ensures key in form ==> r == form[key]
    ensures key !in form ==> r == prev
  {
    if key in form then form[key] else prev
  }

  function PickValue(form: Form, key: string, prev: Value): (r: Value)
    ensures key in form ==> r == Records.Text(form[key])
    ensures key !in form ==> r == prev
  {
    if key in form then Records.Text(form[key]) else prev
  }

  function PickOption(form: Form, key: string, prev: Option<string>): (r: Option<string>)
    ensures key in form ==> r == Some(form[key])
    ensures key !in form ==> r == prev
  {
    if key in form then Some(form[key]) else prev
  }

  /**
   * `{ ...base, ...form, id, updatedAt }`: every field the form holds replaces the base record's,
   * the id stays and `updatedAt` becomes `now`.
   */
  function Overlay(base: Activity, form: Form, now: string): (r: Activity)
    ensures r.id == base.id && r.updatedAt == now
  {
    Activity(
      base.id,
      PickValue(form, "environmentId", base.environmentId),
      PickOption(form, "environmentName", base.environmentName),
      Pick(form, "environmentType", base.environmentType),
      Pick(form, "responsibleTeacher", base.responsibleTeacher),
      Pick(form, "year", base.year),
      Pick(form, "division", base.division),
      Pick(form, "group", base.group),
      Pick(form, "activityDate", base.activityDate),
      Pick(form, "activityTime", base.activityTime),
      PickValue(form, "duration", base.duration),
      Pick(form, "activityTitle", base.activityTitle),
      Pick(form, "activityDescription", base.activityDescription),
      Pick(form, "observations", base.observations),
      Pick(form, "createdAt", base.createdAt),
      now)
  }

  /** An empty form changes nothing but the update time. */
  lemma OverlayEmpty(base: Activity, now: string)
    ensures Overlay(base, map[], now) == base.(updatedAt := now)
  {
  }

  /** Two overlays in a row are one overlay of the two forms, the later one winning on shared keys. */
  lemma OverlayCompose(base: Activity, f: Form, g: Form, t1: string, t2: string)
    ensures Overlay(Overlay(base, f, t1), g, t2) == Overlay(base, f + g, t2)
  {
  }

  /** Submitting the same form twice is submitting it once. */
  lemma OverlayIdempotent(base: Activity, f: Form, t: string)
    ensures Overlay(Overlay(base, f, t), f, t) == Overlay(base, f, t)
  {
    OverlayCompose(base, f, f, t, t);
    assert f + f == f;
  }

  /**
   * The record `handleActivitySubmit` builds from a valid form: the form's fields, the id, the
   * environment's name when the chosen id names one, and both timestamps.
   */
  function NewActivity(environments: seq<Environment>, form: Form, id: int, now: string): (r: Activity)
    ensures r.id == id && r.createdAt == now && r.updatedAt == now
    ensures r.environmentId == Records.Text(Field(form, "environmentId"))
    ensures FormEnvironment(environments, form).Some? ==>
              r.environmentName == Some(environments[FormEnvironment(environments, form).value].environmentName)
  {
    var base := Activity(id, Records.Text(""), None, "", "", "", "", "", "", "", Records.Text(""), "", "", "", now, now);
    var a := Overlay(base, form, now).(id := id, createdAt := now, environmentId := Records.Text(Field(form, "environmentId")));
    match FormEnvironment(environments, form)
    case Some(k) => a.(environmentName := Some(environments[k].environmentName))
    case None => a
  }

  /** `handleActivitySubmit`: a valid form puts the new activity at the head; an invalid one changes nothing. */
  function Register(activities: seq<Activity>, environments: seq<Environment>, form: Form, today: string, now: string): (r: seq<Activity>)
    ensures !FormValid(form, today) ==> r == activities
    ensures FormValid(form, today) ==> |r| == |activities| + 1 && r[1..] == activities
  {
    if FormValid(form, today) then [NewActivity(environments, form, GenerateActivityId(activities), now)] + activities
    else activities
  }

  /** A registered activity carries an id no earlier record has, and the ids of the list grow by exactly that one. */
  lemma RegisterFreshId(activities: seq<Activity>, environments: seq<Environment>, form: Form, today: string, now: string)
    requires FormValid(form, today)
    ensures var r := Register(activities, environments, form, today, now);
      r[0].id == NextId(ActivityIds(activities))
      && r[0].id !in ActivityIds(activities)
      && ActivityIds(r) == [r[0].id] + ActivityIds(activities)
  {
    var r := Register(activities, environments, form, today, now);
    assert r == [r[0]] + activities;
    assert ActivityIds(r)[1..] == ActivityIds(activities);
  }

  // ----- editing and deleting -----

  /**
   * `handleEditActivitySubmit`: the first record with the edited activity's id becomes that
   * activity overlaid with the form; nothing changes without an activity under edit or without a
   * record carrying its id.
   */
  function Edit(activities: seq<Activity>, current: Option<Activity>, form: Form, now: string): (r: seq<Activity>)
    ensures |r| == |activities|
    ensures current.None? ==> r == activities
    ensures forall i :: 0 <= i < |activities| && r[i] != activities[i] ==>
              current.Some? && activities[i].id == current.value.id && r[i] == Overlay(current.value, form, now)
              && forall j :: 0 <= j < i ==> activities[j].id != current.value.id
    ensures ActivityIds(r) == ActivityIds(activities)
  {
    if current.None? then activities
    else
      match FindIndex(activities, (a: Activity) => a.id == current.value.id)
      case None => activities
      case Some(k) =>
        var r := activities[k := Overlay(current.value, form, now)];
        assert forall i :: 0 <= i < |r| ==> r[i].id == activities[i].id;
        r
  }

  /** An edit of a listed activity replaces exactly its first record. */
  lemma EditReplacesFirst(activities: seq<Activity>, current: Activity, form: Form, now: string, k: nat)
    requires k < |activities| && activities[k].id == current.id
    requires forall j :: 0 <= j < k ==> activities[j].id != current.id
    ensures Edit(activities, Some(current), form, now) == activities[k := Overlay(current, form, now)]
  {
    var found := FindIndex(activities, (a: Activity) => a.id == current.id);
    assert found == Some(k);
  }

  /** `deleteActivity`: with the user's confirmation, every record with that id is removed and the rest kept in order. */
  function Delete(activities: seq<Activity>, id: int, confirmed: bool): (r: seq<Activity>)
    ensures !confirmed ==> r == activities
    ensures confirmed ==> forall i :: 0 <= i < |r| ==> r[i].id != id
    ensures multiset(r) <= multiset(activities)
    ensures forall a :: a in multiset(activities) && a.id != id ==> multiset(r)[a] == multiset(activities)[a]
  {
    if confirmed && FindIndex(activities, (a: Activity) => a.id == id).Some? then
      FilterMultiset(activities, (a: Activity) => a.id != id);
      Filter(activities, (a: Activity) => a.id != id)
    else activities
  }

  /** `getActivitiesByEnvironment`: the records stored under that environment id, in order, each as often as stored. */
  function ByEnvironment(activities: seq<Activity>, environmentId: Value): (r: seq<Activity>)
    ensures forall i :: 0 <= i < |r| ==> r[i].environmentId == environmentId
    ensures multiset(r) <= multiset(activities)
    ensures forall a :: a in multiset(activities) && a.environmentId == environmentId ==> multiset(r)[a] == multiset(activities)[a]
  {
    FilterMultiset(activities, (a: Activity) => a.environmentId == environmentId);
    Filter(activities, (a: Activity) => a.environmentId == environmentId)
  }

  /**
   * The records keep their stored order: those of `a + b` are those of `a` followed by those of
   * `b`, and one record is listed exactly when it is stored under that id.
   */
  lemma ByEnvironmentInOrder(a: seq<Activity>, b: seq<Activity>, x: Activity, environmentId: Value)
    ensures ByEnvironment(a + b, environmentId) == ByEnvironment(a, environmentId) + ByEnvironment(b, environmentId)
    ensures ByEnvironment([x], environmentId) == (if x.environmentId == environmentId then [x] else [])
  {
    FilterConcat(a, b, (a: Activity) => a.environmentId == environmentId);
    FilterOne(x, (a: Activity) => a.environmentId == environmentId);
  }

  /** The id is compared strictly: a numeric id does not find the records that hold it as text. */
  lemma ByEnvironmentStrict(a: Activity)
    requires a.environmentId == Records.Text("1")
    ensures ByEnvironment([a], Num(1)) == []
  {
  }

  // ----- the page -----

  class ActivitiesModule {
    var activities: seq<Activity>
    var environments: seq<Environment>
    var currentActivity: Option<Activity>
    var isEditing: bool

    /** `loadEnvironments` and `loadActivities`. */
    constructor (savedActivities: Option<seq<Activity>>, savedEnvironments: Option<seq<Environment>>, now: string)
      ensures activities == LoadActivities(savedActivities, now)
      ensures environments == (if savedEnvironments.Some? then savedEnvironments.value else [])
      ensures currentActivity == None && !isEditing
    {
      activities := LoadActivities(savedActivities, now);
      environments := if savedEnvironments.Some? then savedEnvironments.value else [];
      currentActivity := None;
      isEditing := false;
    }

    /** `validateActivityForm`: the required-field loop, then the date and duration checks. */
    static method ValidateActivityForm(form: Form, today: string) returns (valid: bool)
      ensures valid <==> FormValid(form, today)
    {
      var flagged;
      valid, flagged := CheckRequired(form, ActivityRequired);
      if FutureDate(form, today) {
        valid := false;
      }
      if DurationOutOfRange(form) {
        valid := false;
      }
    }

    /** `handleActivitySubmit`. */
    method HandleActivitySubmit(form: Form, today: string, now: string) returns (registered: bool)
      modifies this
      ensures registered == FormValid(form, today)
      ensures activities == Register(old(activities), environments, form, today, now)
      ensures environments == old(environments) && currentActivity == old(currentActivity) && isEditing == old(isEditing)
    {
      registered := ValidateActivityForm(form, today);
      if !registered {
        return;
      }
      var a := NewActivity(environments, form, GenerateActivityId(activities), now);
      activities := [a] + activities;
    }

    /** `editActivity`: the record with that id becomes the one under edit. */
    method BeginEdit(id: int)
      modifies this
      ensures var k := FindIndex(old(activities), (a: Activity) => a.id == id);
        currentActivity == (if k.Some? then Some(old(activities)[k.value]) else old(currentActivity))
        && isEditing == (k.Some? || old(isEditing))
      ensures activities == old(activities) && environments == old(environments)
    {
      var k := FindIndex(activities, (a: Activity) => a.id == id);
      if k.Some? {
        currentActivity := Some(activities[k.value]);
        isEditing := true;
      }
    }

    /** `closeEditModal`: no record is under edit any more. */
    method CloseEditModal()
      modifies this
      ensures currentActivity == None && !isEditing
      ensures activities == old(activities) && environments == old(environments)
    {
      currentActivity := None;
      isEditing := false;
    }

    /** `handleEditActivitySubmit`: the record under edit is overlaid with the form, and on success the edit modal closes. */
    method HandleEditActivitySubmit(form: Form, now: string)
      modifies this
      ensures activities == Edit(old(activities), old(currentActivity), form, now)
      ensures var saved := match old(currentActivity)
                case None => false
                case Some(c) => FindIndex(old(activities), (a: Activity) => a.id == c.id).Some?;
        if saved then currentActivity == None && !isEditing
        else currentActivity == old(currentActivity) && isEditing == old(isEditing)
      ensures environments == old(environments)
    {
      if currentActivity.None? {
        return;
      }
      var current := currentActivity.value;
      var k := FindIndex(activities, (a: Activity) => a.id == current.id);
      if k.Some? {
        activities := activities[k.value := Overlay(current, form, now)];
        CloseEditModal();
      }
    }

    /** `deleteActivity`. */
    method DeleteActivity(id: int, confirmed: bool)
      modifies this
      ensures activities == Delete(old(activities), id, confirmed)
      ensures environments == old(environments) && currentActivity == old(currentActivity) && isEditing == old(isEditing)
    {
      activities := Delete(activities, id, confirmed);
    }
  }
}
