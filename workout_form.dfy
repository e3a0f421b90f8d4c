/**
 * The new-workout form: the lists of runs and strength exercises it edits
 * (append a default entry, remove the entry at an index, change one field
 * of one entry, pick an exercise from the catalogue), the catalogue search,
 * and the record handed to `onSave` on submit.
 */
module NewWorkoutForm {
  import opened Wrappers

  /** One run of the session (`WorkoutRun`). */
  datatype WorkoutRun = WorkoutRun(
    distance: string,
    temps: real,
    type_chrono: string,
    repos: string,
    chaussures: string,
    terrain: string)

  /** One strength exercise of the session (`WorkoutMuscu`). */
  datatype WorkoutMuscu = WorkoutMuscu(
    exercice_id: string,
    exercice_nom: string,
    series: int,
    reps: int,
    poids: real)

  /** A catalogue entry. */
  datatype Exercice = Exercice(id: string, nom: string, categorie: string)

  /** The run `addCourse` appends: 60 m, hand-timed, spikes, on the track. */
  const DefaultRun: WorkoutRun := WorkoutRun("60m", 0.0, "manuel", "", "pointes", "piste")

  /** The exercise `addMuscu` appends: no exercise chosen, everything 0. */
  const DefaultMuscu: WorkoutMuscu := WorkoutMuscu("", "", 0, 0, 0.0)

  // ---------------------------------------------------------------------------
  // Append and remove

  /** `s.filter((_, i) => i !== index)`, scanning from position `i`. */
  function KeepOthers<T>(s: seq<T>, index: int, i: nat): seq<T>
    requires i <= |s|
    decreases |s| - i
  {
    if i == |s| then []
    else (if i == index then [] else [s[i]]) + KeepOthers(s, index, i + 1)
  }

  /** Scanning from past the removed index, or with an index outside the list, keeps every entry. */
  lemma {:induction false} KeepOthersTail<T>(s: seq<T>, index: int, i: nat)
    requires i <= |s| && !(i <= index < |s|)
    ensures KeepOthers(s, index, i) == s[i..]
    decreases |s| - i
  {
    if i < |s| {
      KeepOthersTail(s, index, i + 1);
      assert KeepOthers(s, index, i) == [s[i]] + s[i + 1..];
      assert s[i..] == [s[i]] + s[i + 1..];
    }
  }

  /** Scanning from before the removed index keeps everything but that entry. */
  lemma {:induction false} KeepOthersSlices<T>(s: seq<T>, index: int, i: nat)
    requires i <= index < |s|
    ensures KeepOthers(s, index, i) == s[i..index] + s[index + 1..]
    decreases |s| - i
  {
    if i == index {
      KeepOthersTail(s, index, i + 1);
      assert s[i..index] == [];
    } else {
      KeepOthersSlices(s, index, i + 1);
      assert KeepOthers(s, index, i) == [s[i]] + (s[i + 1..index] + s[index + 1..]);
      ConsBeforeGap(s, i, index);
    }
  }

  lemma ConsBeforeGap<T>(s: seq<T>, i: nat, index: int)
    requires i < index < |s|
    ensures [s[i]] + (s[i + 1..index] + s[index + 1..]) == s[i..index] + s[index + 1..]
  {
    assert s[i..index] == [s[i]] + s[i + 1..index];
  }

  /**
   * `removeCourse` / `removeMuscu`: the entry at `index` is dropped and the
   * others keep their order; an index outside the list removes nothing.
   */
  function RemoveAt<T>(s: seq<T>, index: int): (r: seq<T>)
    ensures 0 <= index < |s| ==> |r| == |s| - 1
    ensures 0 <= index < |s| ==> forall k :: 0 <= k < index ==> r[k] == s[k]
    ensures 0 <= index < |s| ==> forall k :: index <= k < |r| ==> r[k] == s[k + 1]
    ensures !(0 <= index < |s|) ==> r == s
  {
    if 0 <= index < |s| then
      KeepOthersSlices(s, index, 0);
      KeepOthers(s, index, 0)
    else
      KeepOthersTail(s, index, 0);
      KeepOthers(s, index, 0)
  }

  /** Removing the entry just appended gives back the list. */
  lemma RemoveLastAppended<T>(s: seq<T>, x: T)
    ensures RemoveAt(s + [x], |s|) == s
  {
    assert RemoveAt(s + [x], |s|) == (s + [x])[..|s|];
  }

  /** `addCourse`: one default run at the end, the others untouched. */
  function AddCourse(courses: seq<WorkoutRun>): (r: seq<WorkoutRun>)
    ensures |r| == |courses| + 1 && r[|courses|] == DefaultRun
    ensures RemoveAt(r, |courses|) == courses
  {
    RemoveLastAppended(courses, DefaultRun);
    courses + [DefaultRun]
  }

  /** `addMuscu`: one default exercise at the end, the others untouched. */
  function AddMuscu(muscu: seq<WorkoutMuscu>): (r: seq<WorkoutMuscu>)
    ensures |r| == |muscu| + 1 && r[|muscu|] == DefaultMuscu
    ensures RemoveAt(r, |muscu|) == muscu
  {
    RemoveLastAppended(muscu, DefaultMuscu);
    muscu + [DefaultMuscu]
  }

  // ---------------------------------------------------------------------------
  // Changing one entry

  /** `[...list]` then `list[index] = v`: a copy with one slot overwritten. */
  method ReplaceAt<T>(s: seq<T>, index: nat, v: T) returns (r: seq<T>)
    requires index < |s|
    ensures |r| == |s| && r[index] == v
    ensures forall k :: 0 <= k < |s| && k != index ==> r[k] == s[k]
  {
    var copy := new T[|s|](k requires 0 <= k < |s| => s[k]);
    copy[index] := v;
    r := copy[..];
  }

  /** A field of a run together with its new value. */
  datatype RunField =
    | Distance(distance: string)
    | Temps(temps: real)
    | TypeChrono(typeChrono: string)
    | Repos(repos: string)
    | Chaussures(chaussures: string)
    | Terrain(terrain: string)

  /** `{ ...run, [field]: value }`. */
  function WithRunField(run: WorkoutRun, f: RunField): WorkoutRun {
    match f
    case Distance(v) => run.(distance := v)
    case Temps(v) => run.(temps := v)
    case TypeChrono(v) => run.(type_chrono := v)
    case Repos(v) => run.(repos := v)
    case Chaussures(v) => run.(chaussures := v)
    case Terrain(v) => run.(terrain := v)
  }

  /** A field of a strength exercise together with its new value. */
  datatype MuscuField =
    | ExerciceId(exerciceId: string)
    | ExerciceNom(exerciceNom: string)
    | Series(series: int)
    | Reps(reps: int)
    | Poids(poids: real)

  /** `{ ...entry, [field]: value }`. */
  function WithMuscuField(m: WorkoutMuscu, f: MuscuField): WorkoutMuscu {
    match f
    case ExerciceId(v) => m.(exercice_id := v)
    case ExerciceNom(v) => m.(exercice_nom := v)
    case Series(v) => m.(series := v)
    case Reps(v) => m.(reps := v)
    case Poids(v) => m.(poids := v)
  }

  /** `updateCourse`: the run at `index` gets the new field value; every other run and the length stay. */
  method UpdateCourse(courses: seq<WorkoutRun>, index: nat, f: RunField) returns (r: seq<WorkoutRun>)
    requires index < |courses|
    ensures |r| == |courses| && r[index] == WithRunField(courses[index], f)
    ensures forall k :: 0 <= k < |courses| && k != index ==> r[k] == courses[k]
  {
    r := ReplaceAt(courses, index, WithRunField(courses[index], f));
  }

  /** `updateMuscu`: the exercise at `index` gets the new field value; every other entry and the length stay. */
  method UpdateMuscu(muscu: seq<WorkoutMuscu>, index: nat, f: MuscuField) returns (r: seq<WorkoutMuscu>)
    requires index < |muscu|
    ensures |r| == |muscu| && r[index] == WithMuscuField(muscu[index], f)
    ensures forall k :: 0 <= k < |muscu| && k != index ==> r[k] == muscu[k]
  {
    r := ReplaceAt(muscu, index, WithMuscuField(muscu[index], f));
  }

  /** Position `k` holds an entry with id `id` and no earlier position does. */
  predicate FirstMatchAt(catalogue: seq<Exercice>, id: string, k: int) {
    0 <= k < |catalogue| && catalogue[k].id == id
    && forall m :: 0 <= m < k ==> catalogue[m].id != id
  }

  /** `exercices.find(e => e.id === id)`: the first entry with that id. */
  function FindExercice(catalogue: seq<Exercice>, id: string): (r: Option<Exercice>)
    ensures r.None? <==> forall k :: 0 <= k < |catalogue| ==> catalogue[k].id != id
    ensures r.Some? ==> exists k :: FirstMatchAt(catalogue, id, k) && catalogue[k] == r.value
    ensures r.Some? ==> r.value.id == id
  {
    if |catalogue| == 0 then None
    else if catalogue[0].id == id then Some(catalogue[0])
    else
      var rest := FindExercice(catalogue[1..], id);
      if rest.Some? then
        FirstAfterHead(catalogue, id, rest.value);
        rest
      else rest
  }

  /** A first match in the tail, after a head that does not match, is the first match of the whole catalogue. */
  lemma FirstAfterHead(catalogue: seq<Exercice>, id: string, e: Exercice)
    requires |catalogue| > 0 && catalogue[0].id != id
    requires exists k :: FirstMatchAt(catalogue[1..], id, k) && catalogue[1..][k] == e
    ensures exists k :: FirstMatchAt(catalogue, id, k) && catalogue[k] == e
  {
    var k :| FirstMatchAt(catalogue[1..], id, k) && catalogue[1..][k] == e;
    assert catalogue[k + 1] == e;
    assert forall m :: 0 < m < k + 1 ==> catalogue[m] == catalogue[1..][m - 1];
    assert FirstMatchAt(catalogue, id, k + 1);
  }

  /**
   * `selectExercice`: when the id is in the catalogue, the entry at `index`
   * takes that id and the name of the first catalogue entry with it, together;
   * otherwise the list is left as it is.
   */
  method SelectExercice(muscu: seq<WorkoutMuscu>, catalogue: seq<Exercice>, index: nat, exerciceId: string)
    returns (r: seq<WorkoutMuscu>)
    requires index < |muscu|
    ensures (forall k :: 0 <= k < |catalogue| ==> catalogue[k].id != exerciceId) ==> r == muscu
    ensures FindExercice(catalogue, exerciceId).Some? ==>
      |r| == |muscu|
      && r[index] == muscu[index].(exercice_id := exerciceId,
                                   exercice_nom := FindExercice(catalogue, exerciceId).value.nom)
      && (forall k :: 0 <= k < |muscu| && k != index ==> r[k] == muscu[k])
  {
    var exercice := FindExercice(catalogue, exerciceId);
    if exercice.Some? {
      r := ReplaceAt(muscu, index, muscu[index].(exercice_id := exerciceId, exercice_nom := exercice.value.nom));
    } else {
      r := muscu;
    }
  }

  // ---------------------------------------------------------------------------
  // Catalogue search

  /** `toLowerCase` on one character (ASCII letters). */
  function LowerChar(c: char): char {
    if 'A' <= c <= 'Z' then (c as int + 32) as char else c
  }

  /** `toLowerCase`. */
  function ToLower(s: string): (r: string)
    ensures |r| == |s|
    ensures forall k :: 0 <= k < |s| ==> r[k] == LowerChar(s[k])
  {
    if |s| == 0 then "" else [LowerChar(s[0])] + ToLower(s[1..])
  }

  /** Lower-casing twice is lower-casing once. */
  lemma ToLowerIdempotent(s: string)
    ensures ToLower(ToLower(s)) == ToLower(s)
  {
    assert forall k :: 0 <= k < |s| ==> LowerChar(LowerChar(s[k])) == LowerChar(s[k]);
  }

  /** `s.includes(t)`: `t` starts at the front of `s` or somewhere further on. */
  function Includes(s: string, t: string): bool
    decreases |s|
  {
    t <= s || (|s| > 0 && Includes(s[1..], t))
  }

  /** `t` occurs in `s` starting at offset `k`. */
  predicate OccursAt(s: string, t: string, k: int) {
    0 <= k && k + |t| <= |s| && s[k..k + |t|] == t
  }

  /** `Includes` holds exactly when `t` occurs in `s` at some offset. */
  lemma {:induction false} IncludesIff(s: string, t: string)
    ensures Includes(s, t) <==> exists k :: OccursAt(s, t, k)
    decreases |s|
  {
    if t <= s {
      assert OccursAt(s, t, 0);
    } else if |s| == 0 {
    } else {
      IncludesIff(s[1..], t);
      if exists k :: OccursAt(s, t, k) {
        var k :| OccursAt(s, t, k);
        assert k != 0;
        assert s[1..][k - 1..k - 1 + |t|] == s[k..k + |t|];
        assert OccursAt(s[1..], t, k - 1);
      }
      if Includes(s[1..], t) {
        var k :| OccursAt(s[1..], t, k);
        assert s[k + 1..k + 1 + |t|] == s[1..][k..k + |t|];
        assert OccursAt(s, t, k + 1);
      }
    }
  }

  /** The search matches the name or the category, ignoring case. */
  predicate Matches(e: Exercice, term: string) {
    Includes(ToLower(e.nom), ToLower(term)) || Includes(ToLower(e.categorie), ToLower(term))
  }

  /** `exercices.filter(...)`: the matching entries, in catalogue order. */
  function MatchingExercices(catalogue: seq<Exercice>, term: string): (r: seq<Exercice>)
    ensures |r| <= |catalogue|
    ensures forall e :: e in r <==> e in catalogue && Matches(e, term)
  {
    if |catalogue| == 0 then []
    else
      var rest := MatchingExercices(catalogue[1..], term);
      assert forall e :: e in catalogue <==> e == catalogue[0] || e in catalogue[1..];
      if Matches(catalogue[0], term) then [catalogue[0]] + rest else rest
  }

  /**
   * The filter keeps catalogue order: filtering a catalogue made of two
   * parts gives the matches of the first part, then those of the second.
   */
  lemma {:induction false} MatchingExercicesAppend(a: seq<Exercice>, b: seq<Exercice>, term: string)
    ensures MatchingExercices(a + b, term) == MatchingExercices(a, term) + MatchingExercices(b, term)
  {
    if a == [] {
      assert a + b == b;
    } else {
      assert (a + b)[0] == a[0];
      assert (a + b)[1..] == a[1..] + b;
      MatchingExercicesAppend(a[1..], b, term);
    }
  }

  /** `filteredExercices`: the whole catalogue for an empty search, the matching entries otherwise. */
  function FilteredExercices(catalogue: seq<Exercice>, searchTerm: string): (r: seq<Exercice>)
    ensures searchTerm == "" ==> r == catalogue
    ensures searchTerm != "" ==> forall e :: e in r <==> e in catalogue && Matches(e, searchTerm)
  {
    if searchTerm != "" then MatchingExercices(catalogue, searchTerm) else catalogue
  }

  /** Searching for a term or for its lower-case form finds the same entries. */
  lemma SearchIgnoresCase(catalogue: seq<Exercice>, term: string)
    ensures MatchingExercices(catalogue, ToLower(term)) == MatchingExercices(catalogue, term)
  {
    ToLowerIdempotent(term);
    assert forall e :: Matches(e, ToLower(term)) == Matches(e, term);
  }

  // ---------------------------------------------------------------------------
  // Submit

  /** What the form holds when it is submitted. `None` is an empty or unreadable number input. */
  datatype FormState = FormState(
    date: string,
    tagSeance: string,
    courses: seq<WorkoutRun>,
    muscu: seq<WorkoutMuscu>,
    autresActivites: string,
    echelleEffort: Option<int>,
    notes: string,
    meteo: string,
    temperature: Option<real>)

  /** The record handed to `onSave`. `None` is a field left undefined. */
  datatype Workout = Workout(
    user_id: Option<string>,
    date: string,
    title: string,
    tag_seance: string,
    courses_json: seq<WorkoutRun>,
    muscu_json: seq<WorkoutMuscu>,
    autres_activites: Option<string>,
    echelle_effort: Option<int>,
    notes: Option<string>,
    meteo: Option<string>,
    temperature: Option<real>,
    duration_minutes: int)

  datatype SubmitOutcome = Rejected(alert: string) | Save(workout: Workout)

  const TagRequired: string := "Le type de séance est obligatoire"
  const SessionMinutes: int := 60

  /** `text || undefined`. */
  function TextOrUndefined(s: string): (r: Option<string>)
    ensures r.None? <==> s == ""
    ensures r.Some? ==> r.value == s
  {
    if s == "" then None else Some(s)
  }

  /** `n || undefined` for an integer input: 0, '' and NaN are dropped. */
  function IntOrUndefined(n: Option<int>): (r: Option<int>)
    ensures r.None? <==> n.None? || n.value == 0
    ensures r.Some? ==> r == n
  {
    if n.Some? && n.value != 0 then n else None
  }

  /** `x || undefined` for a decimal input: 0, '' and NaN are dropped. */
  function RealOrUndefined(x: Option<real>): (r: Option<real>)
    ensures r.None? <==> x.None? || x.value == 0.0
    ensures r.Some? ==> r == x
  {
    if x.Some? && x.value != 0.0 then x else None
  }

  /**
   * `handleSubmit`: without a session type the form is rejected and nothing
   * is saved; otherwise the record carries the lists as they are, a title
   * made of the type and the date, 60 minutes, and leaves every empty
   * optional field undefined.
   */
  function HandleSubmit(form: FormState, userId: Option<string>): (out: SubmitOutcome)
    ensures out.Rejected? <==> form.tagSeance == ""
    ensures out.Rejected? ==> out.alert == TagRequired
    ensures out.Save? ==>
      var w := out.workout;
      w.title == "Séance " + form.tagSeance + " - " + form.date
      && w.tag_seance == form.tagSeance && w.date == form.date && w.user_id == userId
      && w.courses_json == form.courses && w.muscu_json == form.muscu
      && w.duration_minutes == SessionMinutes
      && (w.autres_activites.None? <==> form.autresActivites == "")
      && (w.notes.None? <==> form.notes == "")
      && (w.meteo.None? <==> form.meteo == "")
      && (w.echelle_effort.None? <==> form.echelleEffort.None? || form.echelleEffort.value == 0)
      && (w.temperature.None? <==> form.temperature.None? || form.temperature.value == 0.0)
      && (w.autres_activites.Some? ==> w.autres_activites.value == form.autresActivites)
      && (w.notes.Some? ==> w.notes.value == form.notes)
      && (w.meteo.Some? ==> w.meteo.value == form.meteo)
      && (w.echelle_effort.Some? ==> w.echelle_effort == form.echelleEffort)
      && (w.temperature.Some? ==> w.temperature == form.temperature)
  {
    if form.tagSeance == "" then Rejected(TagRequired)
    else
      Save(Workout(
        userId,
        form.date,
        "Séance " + form.tagSeance + " - " + form.date,
        form.tagSeance,
        form.courses,
        form.muscu,
        TextOrUndefined(form.autresActivites),
        IntOrUndefined(form.echelleEffort),
        TextOrUndefined(form.notes),
        TextOrUndefined(form.meteo),
        RealOrUndefined(form.temperature),
        SessionMinutes))
  }

  /** `x || ''`: an undefined text field shows as empty. */
  function TextOrEmpty(s: Option<string>): (r: string)
    ensures s.None? ==> r == ""
    ensures s.Some? ==> r == s.value
  {
    if s.Some? then s.value else ""
  }

  /**
   * The form opened on an existing workout (`editingWorkout?.x || default`):
   * today's date when the workout has none, empty inputs for undefined or
   * zero numbers.
   */
  function FormOf(w: Workout, today: string): (f: FormState)
    ensures w.date != "" ==> f.date == w.date
    ensures w.date == "" ==> f.date == today
    ensures f.tagSeance == w.tag_seance && f.courses == w.courses_json && f.muscu == w.muscu_json
    ensures w.autres_activites.None? ==> f.autresActivites == ""
    ensures w.autres_activites.Some? ==> f.autresActivites == w.autres_activites.value
    ensures w.notes.None? ==> f.notes == ""
    ensures w.notes.Some? ==> f.notes == w.notes.value
    ensures w.meteo.None? ==> f.meteo == ""
    ensures w.meteo.Some? ==> f.meteo == w.meteo.value
    ensures f.echelleEffort.None? <==> w.echelle_effort.None? || w.echelle_effort.value == 0
    ensures f.echelleEffort.Some? ==> f.echelleEffort == w.echelle_effort
    ensures f.temperature.None? <==> w.temperature.None? || w.temperature.value == 0.0
    ensures f.temperature.Some? ==> f.temperature == w.temperature
  {
    FormState(
      if w.date != "" then w.date else today,
      w.tag_seance,
      w.courses_json,
      w.muscu_json,
      TextOrEmpty(w.autres_activites),
      IntOrUndefined(w.echelle_effort),
      TextOrEmpty(w.notes),
      TextOrEmpty(w.meteo),
      RealOrUndefined(w.temperature))
  }

  /**
   * Opening a saved workout for editing and submitting it unchanged saves
   * the same record again.
   */
  lemma ResubmitUnchanged(form: FormState, userId: Option<string>, today: string)
    requires form.tagSeance != "" && form.date != ""
    ensures HandleSubmit(form, userId).Save?
    ensures HandleSubmit(FormOf(HandleSubmit(form, userId).workout, today), userId) == HandleSubmit(form, userId)
  {
    var w := HandleSubmit(form, userId).workout;
    var again := FormOf(w, today);
    assert TextOrUndefined(again.autresActivites) == w.autres_activites;
    assert TextOrUndefined(again.notes) == w.notes;
    assert TextOrUndefined(again.meteo) == w.meteo;
  }
}
