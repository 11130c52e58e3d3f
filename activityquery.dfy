/**
 * The activity search page: the submitted criteria are collected from the form, the recorded
 * activities are filtered conjunctively and sorted newest first, the teacher selector lists each
 * teacher once, and the results export as CSV.
 */
module ActivityQuery {
  import opened Common
  import opened Text
  import opened Sorting
  import opened Records

  // ----- collecting the criteria -----

  /** One entry of the form: a value blank once trimmed is skipped, any other is kept trimmed. */
  function AddEntry(m: map<string, string>, key: string, value: string): (r: map<string, string>)
    ensures Trim(value) != "" ==> r == m[key := Trim(value)]
    ensures Trim(value) == "" ==> r == m
  {
    if Trim(value) != "" then m[key := Trim(value)] else m
  }

  /** The criteria kept from the form's entries, in order (a later entry for a key wins). */
  function CollectFilters(entries: seq<(string, string)>): (r: map<string, string>)
    ensures forall key :: key in r ==> r[key] != ""
  {
    if entries == [] then map[]
    else AddEntry(CollectFilters(entries[..|entries| - 1]), entries[|entries| - 1].0, entries[|entries| - 1].1)
  }

  /** Every kept criterion is non-empty and is the trimmed value of an entry with its key. */
  lemma {:induction false} CollectFiltersSound(entries: seq<(string, string)>, key: string)
    requires key in CollectFilters(entries)
    ensures CollectFilters(entries)[key] != ""
    ensures exists i :: 0 <= i < |entries| && entries[i].0 == key && CollectFilters(entries)[key] == Trim(entries[i].1)
  {
    assert entries != [];
    var n := |entries| - 1;
    var init := entries[..n];
    var m := CollectFilters(init);
    assert CollectFilters(entries) == AddEntry(m, entries[n].0, entries[n].1);
    if key == entries[n].0 && Trim(entries[n].1) != "" {
      assert CollectFilters(entries)[key] == Trim(entries[n].1);
    } else {
      assert key in m && CollectFilters(entries)[key] == m[key];
      CollectFiltersSound(init, key);
      var i :| 0 <= i < |init| && init[i].0 == key && m[key] == Trim(init[i].1);
      assert entries[i] == init[i];
    }
  }

  /** Every key that has an entry with a non-blank value is kept. */
  lemma {:induction false} CollectFiltersComplete(entries: seq<(string, string)>, i: int)
    requires 0 <= i < |entries| && Trim(entries[i].1) != ""
    ensures entries[i].0 in CollectFilters(entries)
  {
    var init := entries[..|entries| - 1];
    if i < |init| {
      assert init[i] == entries[i];
      CollectFiltersComplete(init, i);
    }
  }

  /** The last non-blank entry for a key decides its criterion. */
  lemma CollectFiltersLastWins(entries: seq<(string, string)>, key: string, value: string)
    requires Trim(value) != ""
    ensures CollectFilters(entries + [(key, value)])[key] == Trim(value)
  {
    assert (entries + [(key, value)])[..|entries|] == entries;
  }

  // ----- matching -----

  /** A criterion is set: present and not empty (`this.currentFilters.x &&`). */
  predicate IsSet(f: map<string, string>, key: string) {
    Field(f, key) != ""
  }

  /**
   * The environment criterion as written: the activity's stored id must be the same number as
   * `parseInt` of the criterion, compared strictly, so an id stored as text never matches.
   */
  predicate EnvironmentMatchesAsWritten(a: Activity, criterion: string) {
    ParseInt(criterion).Some? && a.environmentId == Value.Num(ParseInt(criterion).value)
  }

  /** An activity registered through the form keeps the id as text; the criterion for that same environment drops it. */
  lemma FormActivityFailsEnvironmentFilter(a: Activity)
    requires a.environmentId == Records.Text("1")
    ensures !EnvironmentMatchesAsWritten(a, "1")
  {
  }

  /** The environment an activity's stored id names, whether stored as a number or as text. */
  function StoredId(v: Value): (r: Option<int>)
    ensures v.Num? ==> r == Some(v.n)
    ensures v.Text? ==> r == ParseInt(v.s)
  {
    if v.Num? then Some(v.n) else ParseInt(v.s)
  }

  /** The environment criterion as intended: the activity's environment, read as a number, is the chosen one. */
  predicate EnvironmentMatches(a: Activity, criterion: string) {
    ParseInt(criterion).Some? && StoredId(a.environmentId) == ParseInt(criterion)
  }

  /**
   * The intended criterion keeps exactly what the written one keeps among numeric ids, and also
   * keeps the activities whose id was stored as the text of the same number.
   */
  lemma EnvironmentMatchesExtends(a: Activity, criterion: string)
    ensures EnvironmentMatchesAsWritten(a, criterion) ==> EnvironmentMatches(a, criterion)
    ensures a.environmentId.Num? ==> (EnvironmentMatches(a, criterion) <==> EnvironmentMatchesAsWritten(a, criterion))
    ensures forall n: int :: a.environmentId == Records.Text(IntToString(n)) && ParseInt(criterion) == Some(n)
              ==> EnvironmentMatches(a, criterion)
  {
    forall n: int | a.environmentId == Records.Text(IntToString(n)) && ParseInt(criterion) == Some(n)
      ensures EnvironmentMatches(a, criterion)
    {
      ParseIntOfIntToString(n);
    }
  }

  /** A case-insensitive substring criterion. */
  predicate ContainsIgnoringCase(s: string, criterion: string) {
    Contains(ToLower(s), ToLower(criterion))
  }

  /** The nine criteria besides the environment: each set one rejects the activity on its own. */
  predicate MatchesOthers(a: Activity, f: map<string, string>) {
    !(IsSet(f, "filterType") && a.environmentType != Field(f, "filterType"))
    && !(IsSet(f, "filterTeacher") && a.responsibleTeacher != Field(f, "filterTeacher"))
    && !(IsSet(f, "filterYear") && a.year != Field(f, "filterYear"))
    && !(IsSet(f, "filterDivision") && a.division != Field(f, "filterDivision"))
    && !(IsSet(f, "filterGroup") && !ContainsIgnoringCase(a.group, Field(f, "filterGroup")))
    && !(IsSet(f, "filterDateFrom") && LexLess(a.activityDate, Field(f, "filterDateFrom")))
    && !(IsSet(f, "filterDateTo") && LexLess(Field(f, "filterDateTo"), a.activityDate))
    && !(IsSet(f, "filterTitle") && !ContainsIgnoringCase(a.activityTitle, Field(f, "filterTitle")))
    && !(IsSet(f, "filterDescription") && !ContainsIgnoringCase(a.activityDescription, Field(f, "filterDescription")))
  }

  /** `applyFilters`' predicate as written, with the strict numeric environment comparison. */
  predicate Matches(a: Activity, f: map<string, string>) {
    !(IsSet(f, "filterEnvironment") && !EnvironmentMatchesAsWritten(a, Field(f, "filterEnvironment")))
    && MatchesOthers(a, f)
  }

  /** The same predicate with the corrected environment criterion. */
  predicate MatchesIntended(a: Activity, f: map<string, string>) {
    !(IsSet(f, "filterEnvironment") && !EnvironmentMatches(a, Field(f, "filterEnvironment")))
    && MatchesOthers(a, f)
  }

  /** The nine other criteria hold exactly when each set one is met; the date range is inclusive. */
  lemma MatchesOthersIff(a: Activity, f: map<string, string>)
    ensures MatchesOthers(a, f) <==>
      (IsSet(f, "filterType") ==> a.environmentType == Field(f, "filterType"))
      && (IsSet(f, "filterTeacher") ==> a.responsibleTeacher == Field(f, "filterTeacher"))
      && (IsSet(f, "filterYear") ==> a.year == Field(f, "filterYear"))
      && (IsSet(f, "filterDivision") ==> a.division == Field(f, "filterDivision"))
      && (IsSet(f, "filterGroup") ==> ContainsIgnoringCase(a.group, Field(f, "filterGroup")))
      && (IsSet(f, "filterDateFrom") ==> LexLeq(Field(f, "filterDateFrom"), a.activityDate))
      && (IsSet(f, "filterDateTo") ==> LexLeq(a.activityDate, Field(f, "filterDateTo")))
      && (IsSet(f, "filterTitle") ==> ContainsIgnoringCase(a.activityTitle, Field(f, "filterTitle")))
      && (IsSet(f, "filterDescription") ==> ContainsIgnoringCase(a.activityDescription, Field(f, "filterDescription")))
  {
    NotLexLessIff(a.activityDate, Field(f, "filterDateFrom"));
    NotLexLessIff(Field(f, "filterDateTo"), a.activityDate);
  }

  /**
   * As written, an activity is kept exactly when its stored id is the number of a set environment
   * criterion and it meets every other set criterion: exact type, teacher, year and division, group,
   * title and description containing the text ignoring case, and the inclusive date range.
   */
  lemma MatchesIff(a: Activity, f: map<string, string>)
    ensures Matches(a, f) <==>
      (IsSet(f, "filterEnvironment") ==>
         ParseInt(Field(f, "filterEnvironment")).Some?
         && a.environmentId == Value.Num(ParseInt(Field(f, "filterEnvironment")).value))
      && (IsSet(f, "filterType") ==> a.environmentType == Field(f, "filterType"))
      && (IsSet(f, "filterTeacher") ==> a.responsibleTeacher == Field(f, "filterTeacher"))
      && (IsSet(f, "filterYear") ==> a.year == Field(f, "filterYear"))
      && (IsSet(f, "filterDivision") ==> a.division == Field(f, "filterDivision"))
      && (IsSet(f, "filterGroup") ==> ContainsIgnoringCase(a.group, Field(f, "filterGroup")))
      && (IsSet(f, "filterDateFrom") ==> LexLeq(Field(f, "filterDateFrom"), a.activityDate))
      && (IsSet(f, "filterDateTo") ==> LexLeq(a.activityDate, Field(f, "filterDateTo")))
      && (IsSet(f, "filterTitle") ==> ContainsIgnoringCase(a.activityTitle, Field(f, "filterTitle")))
      && (IsSet(f, "filterDescription") ==> ContainsIgnoringCase(a.activityDescription, Field(f, "filterDescription")))
  {
    MatchesOthersIff(a, f);
  }

  /** The corrected predicate keeps all that the written one keeps, and the same activities when ids are stored as numbers. */
  lemma MatchesIntendedExtends(a: Activity, f: map<string, string>)
    ensures Matches(a, f) ==> MatchesIntended(a, f)
    ensures a.environmentId.Num? ==> (MatchesIntended(a, f) <==> Matches(a, f))
  {
    EnvironmentMatchesExtends(a, Field(f, "filterEnvironment"));
  }

  /** With no criterion set every activity is kept. */
  lemma NoCriteriaKeepsAll(a: Activity)
    ensures Matches(a, map[])
  {
  }

  /** The sort key: date and time, compared as one text. */
  function When(a: Activity): Key {
    Str(a.activityDate + " " + a.activityTime)
  }

  /** The activities meeting every set criterion as written, in stored order. */
  function FilterActivities(activities: seq<Activity>, f: map<string, string>): (r: seq<Activity>)
    ensures forall i :: 0 <= i < |r| ==> Matches(r[i], f) && r[i] in activities
    ensures forall i :: 0 <= i < |activities| && Matches(activities[i], f) ==> activities[i] in r
  {
    Filter(activities, (a: Activity) => Matches(a, f))
  }

  /** The activities meeting every set criterion with the corrected environment criterion, in stored order. */
  function FilterIntended(activities: seq<Activity>, f: map<string, string>): (r: seq<Activity>)
    ensures forall i :: 0 <= i < |r| ==> MatchesIntended(r[i], f) && r[i] in activities
    ensures forall i :: 0 <= i < |activities| && MatchesIntended(activities[i], f) ==> activities[i] in r
  {
    Filter(activities, (a: Activity) => MatchesIntended(a, f))
  }

  /** The filter keeps the stored order: it works piece by piece, and keeps one activity exactly when it matches. */
  lemma FilterActivitiesInOrder(a: seq<Activity>, b: seq<Activity>, x: Activity, f: map<string, string>)
    ensures FilterActivities(a + b, f) == FilterActivities(a, f) + FilterActivities(b, f)
    ensures FilterActivities([x], f) == (if Matches(x, f) then [x] else [])
  {
    FilterConcat(a, b, (a: Activity) => Matches(a, f));
    FilterOne(x, (a: Activity) => Matches(a, f));
  }

  /** The corrected filter keeps the stored order in the same way. */
  lemma FilterIntendedInOrder(a: seq<Activity>, b: seq<Activity>, x: Activity, f: map<string, string>)
    ensures FilterIntended(a + b, f) == FilterIntended(a, f) + FilterIntended(b, f)
    ensures FilterIntended([x], f) == (if MatchesIntended(x, f) then [x] else [])
  {
    FilterConcat(a, b, (a: Activity) => MatchesIntended(a, f));
    FilterOne(x, (a: Activity) => MatchesIntended(a, f));
  }

  /** The kept activities, newest first. */
  function NewestFirst(kept: seq<Activity>): seq<Activity>
  {
    SortBy(kept, When, Desc)
  }

  /** `applyFilters` as written. */
  function Results(activities: seq<Activity>, f: map<string, string>): (r: seq<Activity>)
    ensures |r| <= |activities| && forall i :: 0 <= i < |r| ==> Matches(r[i], f)
  {
    var kept := FilterActivities(activities, f);
    NewestFirstMembers(kept);
    NewestFirst(kept)
  }

  /** `applyFilters` with the corrected environment criterion. */
  function ResultsIntended(activities: seq<Activity>, f: map<string, string>): (r: seq<Activity>)
    ensures |r| <= |activities| && forall i :: 0 <= i < |r| ==> MatchesIntended(r[i], f)
  {
    var kept := FilterIntended(activities, f);
    NewestFirstMembers(kept);
    NewestFirst(kept)
  }

  /** Newest first holds as many activities as it is given, each one of them. */
  lemma NewestFirstMembers(kept: seq<Activity>)
    ensures |NewestFirst(kept)| == |kept|
    ensures forall i :: 0 <= i < |NewestFirst(kept)| ==> NewestFirst(kept)[i] in kept
  {
    var r := NewestFirst(kept);
    assert |multiset(r)| == |multiset(kept)|;
    forall i | 0 <= i < |r|
      ensures r[i] in kept
    {
      assert r[i] in multiset(kept);
    }
  }

  /** Newest first holds the same activities, as often each, with no earlier one before a later one. */
  lemma NewestFirstSpec(kept: seq<Activity>)
    ensures var r := NewestFirst(kept);
      multiset(r) == multiset(kept)
      && Sorted(r, When, Desc)
      && (forall i :: 0 <= i < |r| ==> r[i] in kept)
      && (forall i :: 0 <= i < |kept| ==> kept[i] in r)
      && (forall i, j :: 0 <= i < j < |r| ==> LexLeq(When(r[j]).s, When(r[i]).s))
  {
    var r := SortBy(kept, When, Desc);
    SortBySorted(kept, When, Desc);
    SameMembers(r, kept);
    LatestFirst(r);
  }

  /** The results are the kept activities, each as often as stored, with no earlier one before a later one. */
  lemma ResultsSpec(activities: seq<Activity>, f: map<string, string>)
    ensures var r := Results(activities, f);
      multiset(r) == multiset(FilterActivities(activities, f))
      && Sorted(r, When, Desc)
      && (forall i :: 0 <= i < |r| ==> Matches(r[i], f))
      && (forall i :: 0 <= i < |activities| && Matches(activities[i], f) ==> activities[i] in r)
      && (forall i, j :: 0 <= i < j < |r| ==> LexLeq(When(r[j]).s, When(r[i]).s))
  {
    NewestFirstSpec(FilterActivities(activities, f));
  }

  /** The same for the corrected criterion. */
  lemma ResultsIntendedSpec(activities: seq<Activity>, f: map<string, string>)
    ensures var r := ResultsIntended(activities, f);
      multiset(r) == multiset(FilterIntended(activities, f))
      && Sorted(r, When, Desc)
      && (forall i :: 0 <= i < |r| ==> MatchesIntended(r[i], f))
      && (forall i :: 0 <= i < |activities| && MatchesIntended(activities[i], f) ==> activities[i] in r)
      && (forall i, j :: 0 <= i < j < |r| ==> LexLeq(When(r[j]).s, When(r[i]).s))
  {
    NewestFirstSpec(FilterIntended(activities, f));
  }

  /** Every activity the written filter shows, the corrected one shows too. */
  lemma ResultsIntendedExtends(activities: seq<Activity>, f: map<string, string>)
    ensures forall i :: 0 <= i < |Results(activities, f)| ==> Results(activities, f)[i] in ResultsIntended(activities, f)
  {
    var r := Results(activities, f);
    NewestFirstSpec(FilterActivities(activities, f));
    NewestFirstSpec(FilterIntended(activities, f));
    forall i | 0 <= i < |r|
      ensures r[i] in ResultsIntended(activities, f)
    {
      var k :| 0 <= k < |activities| && activities[k] == r[i];
      MatchesIntendedExtends(activities[k], f);
    }
  }

  /** Two sequences with the same multiset hold the same elements. */
  lemma SameMembers<T>(a: seq<T>, b: seq<T>)
    requires multiset(a) == multiset(b)
    ensures forall i :: 0 <= i < |a| ==> a[i] in b
    ensures forall i :: 0 <= i < |b| ==> b[i] in a
  {
    forall i | 0 <= i < |a|
      ensures a[i] in b
    {
      assert a[i] in multiset(b);
    }
    forall i | 0 <= i < |b|
      ensures b[i] in a
    {
      assert b[i] in multiset(a);
    }
  }

  /** Sorted latest first, no activity precedes a later one. */
  lemma LatestFirst(r: seq<Activity>)
    requires Sorted(r, When, Desc)
    ensures forall i, j :: 0 <= i < j < |r| ==> LexLeq(When(r[j]).s, When(r[i]).s)
  {
    forall i, j | 0 <= i < j < |r|
      ensures LexLeq(When(r[j]).s, When(r[i]).s)
    {
      NotLexLessIff(When(r[i]).s, When(r[j]).s);
    }
  }

  // ----- teacher options -----

  function Teachers(activities: seq<Activity>): (r: seq<string>)
    ensures |r| == |activities| && forall i :: 0 <= i < |activities| ==> r[i] == activities[i].responsibleTeacher
  {
    MapSeq(activities, (a: Activity) => a.responsibleTeacher)
  }

  /** `populateTeacherFilter`: each teacher once, in the order they first appear. */
  function TeacherOptions(activities: seq<Activity>): (r: seq<string>)
    ensures NoDup(r)
    ensures forall i :: 0 <= i < |activities| ==> activities[i].responsibleTeacher in r
  {
    Distinct(Teachers(activities))
  }

  /** The options are the activities' teachers, without repeats, ordered by first appearance. */
  lemma TeacherOptionsSpec(activities: seq<Activity>)
    ensures var r := TeacherOptions(activities);
      var t := Teachers(activities);
      (forall i :: 0 <= i < |activities| ==> activities[i].responsibleTeacher in r)
      && (forall i :: 0 <= i < |r| ==> exists j :: 0 <= j < |activities| && activities[j].responsibleTeacher == r[i])
      && NoDup(r)
      && (forall i, j :: 0 <= i < j < |r| ==> FirstIn(t, r[i]) < FirstIn(t, r[j]))
  {
    var t := Teachers(activities);
    DistinctFirstOccurrenceOrder(t);
    forall i | 0 <= i < |TeacherOptions(activities)|
      ensures exists j :: 0 <= j < |activities| && activities[j].responsibleTeacher == TeacherOptions(activities)[i]
    {
      var j := FirstIn(t, TeacherOptions(activities)[i]);
      assert activities[j].responsibleTeacher == t[j];
    }
  }

  // ----- export -----

  /** `getEnvironmentTypeLabel`. */
  function TypeLabel(t: string): (r: string)
    ensures t !in ["animal", "vegetal", "otro"] ==> r == t
  {
    if t == "animal" then "Animal" else if t == "vegetal" then "Vegetal" else if t == "otro" then "Otro" else t
  }

  /** `s.replace(/"/g, '""')`. */
  function DoubleQuotes(s: string): string {
    ReplaceChar(s, '"', "\"\"")
  }

  /** `${x}` of an optional text: the text, or `undefined`. */
  function OptionalText(o: Option<string>): (r: string)
    ensures o.Some? ==> r == o.value
  {
    if o.Some? then o.value else "undefined"
  }

  /** One CSV line of an activity: the twelve columns joined by `,`. */
  function ActivityRow(a: Activity): string
  {
    Join([a.activityDate, a.activityTime, Quote(OptionalText(a.environmentName)), TypeLabel(a.environmentType),
          Quote(a.activityTitle), Quote(DoubleQuotes(a.activityDescription)), Quote(a.responsibleTeacher),
          a.year, a.division, Quote(a.group), ValueText(a.duration), Quote(DoubleQuotes(a.observations))], ",")
  }

  function ActivityRows(activities: seq<Activity>): (r: seq<string>)
    ensures |r| == |activities| && forall i :: 0 <= i < |activities| ==> r[i] == ActivityRow(activities[i])
  {
    MapSeq(activities, ActivityRow)
  }

  const ActivityColumns: seq<string> :=
    ["Fecha", "Hora", "Entorno", "Tipo", "Título", "Descripción", "Profesor", "Año", "División", "Grupo",
     "Duración (min)", "Observaciones"]

  /** `exportResults`: nothing for no results, else the header and one line per result, joined by new lines. */
  function ActivitiesCsv(filtered: seq<Activity>): (r: Option<string>)
    ensures r.None? <==> filtered == []
  {
    if filtered == [] then None else Some(Join([Join(ActivityColumns, ",")] + ActivityRows(filtered), "\n"))
  }

  /** The export starts with the twelve-column header line and holds one line per result after it. */
  lemma ActivitiesCsvShape(filtered: seq<Activity>)
    requires filtered != []
    ensures ActivitiesCsv(filtered).value == Join(ActivityColumns, ",") + "\n" + Join(ActivityRows(filtered), "\n")
    ensures |ActivityRows(filtered)| == |filtered|
  {
    var parts := [Join(ActivityColumns, ",")] + ActivityRows(filtered);
    assert parts[1..] == ActivityRows(filtered);
  }

  /** How a CSV reader takes a quoted field apart: `""` inside stands for `"`, and a lone `"` must end the field. */
  function ReadQuotedBody(t: string): Option<string>
    decreases |t|
  {
    if t == [] then None
    else if t[0] == '"' then
      if |t| == 1 then Some("")
      else if t[1] == '"' then
        match ReadQuotedBody(t[2..])
        case None => None
        case Some(rest) => Some("\"" + rest)
      else None
    else
      match ReadQuotedBody(t[1..])
      case None => None
      case Some(rest) => Some([t[0]] + rest)
  }

  function ReadQuoted(field: string): Option<string>
  {
    if field != [] && field[0] == '"' then ReadQuotedBody(field[1..]) else None
  }

  lemma {:induction false} ReadDoubled(s: string)
    ensures ReadQuotedBody(DoubleQuotes(s) + "\"") == Some(s)
  {
    if s == [] {
      assert DoubleQuotes(s) + "\"" == "\"";
    } else {
      ReadDoubled(s[1..]);
      var tail := DoubleQuotes(s[1..]) + "\"";
      if s[0] == '"' {
        assert DoubleQuotes(s) + "\"" == "\"\"" + tail;
        assert ("\"\"" + tail)[2..] == tail;
      } else {
        assert DoubleQuotes(s) + "\"" == [s[0]] + tail;
        assert ([s[0]] + tail)[1..] == tail;
      }
      assert [s[0]] + s[1..] == s;
    }
  }

  /** The description and observation columns read back as the original texts, whatever quotes they hold. */
  lemma DoubledColumnReadsBack(s: string)
    ensures ReadQuoted(Quote(DoubleQuotes(s))) == Some(s)
  {
    ReadDoubled(s);
    assert Quote(DoubleQuotes(s))[1..] == DoubleQuotes(s) + "\"";
  }

  /** The title, teacher, group and environment columns are quoted without doubling: a title holding a quote does not read back. */
  lemma TitleWithQuoteUnreadable()
    ensures ReadQuoted(Quote("a\"b")) == None
  {
    assert Quote("a\"b")[1..] == "a\"b\"";
    assert ("a\"b\"")[1..] == "\"b\"";
  }

  // ----- the page -----

  class ActivityQueryModule {
    var activities: seq<Activity>
    var environments: seq<Environment>
    var filteredActivities: seq<Activity>
    var currentFilters: map<string, string>

    /** `loadData`: the stored activities and environments, none when absent. */
    constructor (savedActivities: Option<seq<Activity>>, savedEnvironments: Option<seq<Environment>>)
      ensures activities == (if savedActivities.Some? then savedActivities.value else [])
      ensures environments == (if savedEnvironments.Some? then savedEnvironments.value else [])
      ensures filteredActivities == [] && currentFilters == map[]
    {
      activities := if savedActivities.Some? then savedActivities.value else [];
      environments := if savedEnvironments.Some? then savedEnvironments.value else [];
      filteredActivities := [];
      currentFilters := map[];
    }

    /** `applyFilters`: the kept activities, sorted newest first. */
    method ApplyFilters()
      modifies this
      ensures filteredActivities == Results(activities, currentFilters)
      ensures activities == old(activities) && environments == old(environments) && currentFilters == old(currentFilters)
    {
      filteredActivities := FilterActivities(activities, currentFilters);
      filteredActivities := NewestFirst(filteredActivities);
    }

    /** `handleFilterSubmit`: the entries' loop builds the criteria, which are then applied. */
    method HandleFilterSubmit(entries: seq<(string, string)>)
      modifies this
      ensures currentFilters == CollectFilters(entries)
      ensures filteredActivities == Results(activities, currentFilters)
      ensures activities == old(activities) && environments == old(environments)
    {
      var filters: map<string, string> := map[];
      var i := 0;
      while i < |entries|
        invariant 0 <= i <= |entries|
        invariant filters == CollectFilters(entries[..i])
      {
        assert entries[..i + 1][..i] == entries[..i];
        var key, value := entries[i].0, entries[i].1;
        var trimmed := Trim(value);
        if trimmed != "" {
          filters := filters[key := trimmed];
        }
        i := i + 1;
      }
      assert entries[..i] == entries;
      currentFilters := filters;
      ApplyFilters();
    }

    /** `clearFilters`. */
    method ClearFilters()
      modifies this
      ensures currentFilters == map[] && filteredActivities == []
      ensures activities == old(activities) && environments == old(environments)
    {
      currentFilters := map[];
      filteredActivities := [];
    }
  }
}
