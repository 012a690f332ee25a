/**
 * The screen that adds a new workout or edits a stored one. The form holds a
 * name, the start and end as text, and a list of entries, each an optional
 * exercise with the weight and reps of its sets. A new workout can be filled
 * from a template, every set starting at weight 0. Saving parses the two
 * times, refuses a name another workout carries, and stores the workout built
 * from the entries: entry i at position i, its j-th set numbered j + 1.
 */
module EditWorkout {

  import opened Wrappers
  import opened Seqs
  import opened Model
  import opened Tables
  import opened Text
  import WorkoutRepository
  import EditTemplate
  import ViewWorkout

  /** One row of the form: the chosen exercise, if any, and the weight and reps of each set. */
  datatype WorkoutEntry = WorkoutEntry(exercise: Option<Exercise>, sets: seq<(real, int)>)

  function RecordName(w: Workout): string { w.name }

  const BadDateTime := "Invalid date/time format. Use yyyy-MM-dd HH:mm"
  const NameTaken := "A workout with this name already exists!"
  const NoExercise := "No exercise selected"

  // ---------------------------------------------------------------------------
  // Between records and entries
  // ---------------------------------------------------------------------------

  function PairsOf(sets: seq<WorkoutSet>): (r: seq<(real, int)>)
    ensures |r| == |sets|
  {
    seq(|sets|, j requires 0 <= j < |sets| => (sets[j].weight, sets[j].reps))
  }

  /** The form's entries for a stored workout's exercises: each exercise with the weight and reps of its sets. */
  function EntriesOf(exercises: seq<WorkoutExercise>): (r: seq<WorkoutEntry>)
    ensures |r| == |exercises|
  {
    seq(|exercises|, i requires 0 <= i < |exercises| => WorkoutEntry(Some(exercises[i].exercise), PairsOf(exercises[i].sets)))
  }

  /** The sets a template entry starts with: its reps, at weight 0. */
  function TemplatePairs(sets: seq<TemplateSet>): (r: seq<(real, int)>)
    ensures |r| == |sets|
  {
    seq(|sets|, j requires 0 <= j < |sets| => (0.0, sets[j].reps))
  }

  /** The form's entries for a template's exercises. */
  function FromTemplate(exercises: seq<TemplateExercise>): (r: seq<WorkoutEntry>)
    ensures |r| == |exercises|
  {
    seq(|exercises|, i requires 0 <= i < |exercises| => WorkoutEntry(Some(exercises[i].exercise), TemplatePairs(exercises[i].sets)))
  }

  /** The sets built from the pairs of an entry: the j-th numbered j + 1. */
  function BuildSets(pairs: seq<(real, int)>): (r: seq<WorkoutSet>)
    ensures |r| == |pairs|
    ensures forall j :: 0 <= j < |pairs| ==>
      r[j].setNumber == j + 1 && r[j].weight == pairs[j].0 && r[j].reps == pairs[j].1
  {
    seq(|pairs|, j requires 0 <= j < |pairs| => WorkoutSet(0, 0, j + 1, pairs[j].0, pairs[j].1))
  }

  predicate AllChosen(entries: seq<WorkoutEntry>)
  {
    forall i :: 0 <= i < |entries| ==> entries[i].exercise.Some?
  }

  /** The exercises built from the entries: the i-th at position i, with no ids yet. */
  function BuildExercises(entries: seq<WorkoutEntry>): (r: seq<WorkoutExercise>)
    requires AllChosen(entries)
    ensures |r| == |entries|
    ensures forall i :: 0 <= i < |entries| ==>
      r[i].order == i && r[i].exercise == entries[i].exercise.value && r[i].sets == BuildSets(entries[i].sets)
  {
    seq(|entries|, i requires 0 <= i < |entries| =>
      WorkoutExercise(0, 0, entries[i].exercise.value, i, BuildSets(entries[i].sets)))
  }

  /** Building the entries and loading the result back into a form gives the same entries. */
  lemma LoadAfterBuild(entries: seq<WorkoutEntry>)
    requires AllChosen(entries)
    ensures EntriesOf(BuildExercises(entries)) == entries
  {
    var built := BuildExercises(entries);
    forall i | 0 <= i < |entries| ensures EntriesOf(built)[i] == entries[i] {
      assert PairsOf(built[i].sets) == entries[i].sets;
    }
  }

  /**
   * A stored workout's records, loaded back into the form, give the entries it
   * was built from: saving and reopening shows the same form.
   */
  lemma {:induction false} ReopenedEntries(entries: seq<WorkoutEntry>, workoutId: int, linkBase: int, setBase: int)
    requires AllChosen(entries)
    ensures EntriesOf(WorkoutRepository.StoredExercises(BuildExercises(entries), workoutId, linkBase, setBase)) == entries
  {
    var built := BuildExercises(entries);
    var stored := WorkoutRepository.StoredExercises(built, workoutId, linkBase, setBase);
    forall i | 0 <= i < |entries| ensures EntriesOf(stored)[i] == entries[i] {
      assert stored[i] == WorkoutRepository.StoredExercise(built, i, workoutId, linkBase, setBase);
      assert PairsOf(stored[i].sets) == entries[i].sets;
    }
  }

  /**
   * Filling the form from a template shows the exercises and reps the template
   * screen shows for it, every set at weight 0.
   */
  lemma FromTemplateAgrees(exercises: seq<TemplateExercise>)
    ensures AllChosen(FromTemplate(exercises))
    ensures forall i :: 0 <= i < |exercises| ==>
      var shown := EditTemplate.EntriesOf(exercises)[i];
      && FromTemplate(exercises)[i].exercise == shown.exercise
      && |FromTemplate(exercises)[i].sets| == |shown.sets|
      && forall j :: 0 <= j < |shown.sets| ==> FromTemplate(exercises)[i].sets[j] == (0.0, shown.sets[j])
  {
  }

  lemma {:induction false} ZeroWeightVolume(sets: seq<WorkoutSet>)
    requires forall j :: 0 <= j < |sets| ==> sets[j].weight == 0.0
    ensures Volume(sets) == 0.0
  {
    if sets != [] {
      ZeroWeightVolume(sets[..|sets| - 1]);
    }
  }

  /** A workout saved straight from a template, before any weight is entered, has a total volume of 0. */
  lemma {:induction false} FromTemplateVolume(exercises: seq<TemplateExercise>)
    ensures AllChosen(FromTemplate(exercises))
    ensures ViewWorkout.TotalVolume(BuildExercises(FromTemplate(exercises))) == 0.0
  {
    FromTemplateAgrees(exercises);
    var built := BuildExercises(FromTemplate(exercises));
    ZeroWeightTotal(built);
  }

  lemma {:induction false} ZeroWeightTotal(exercises: seq<WorkoutExercise>)
    requires forall i, j :: 0 <= i < |exercises| && 0 <= j < |exercises[i].sets| ==> exercises[i].sets[j].weight == 0.0
    ensures ViewWorkout.TotalVolume(exercises) == 0.0
  {
    if exercises != [] {
      var n := |exercises| - 1;
      ZeroWeightTotal(exercises[..n]);
      ZeroWeightVolume(exercises[n].sets);
    }
  }

  // ---------------------------------------------------------------------------
  // The Save handler
  // ---------------------------------------------------------------------------

  /** What pressing Save decides, before the repository is called. */
  datatype Outcome =
    | Unparsable                  // the start or end is not in the yyyy-MM-dd HH:mm format
    | Ignored                     // a blank name or no entries: nothing happens
    | Failed(failure: Failure)    // reading the workouts failed; its message is shown
    | NameRejected                // another workout carries the name
    | NoExerciseChosen            // building the exercises hit an entry without one
    | Inserts(w: Workout)
    | Updates(w: Workout)

  /**
   * The Save handler's decision over the form (`original` is the workout being
   * edited, absent for a new one; `start` and `end` are the parsed times, absent
   * when their text does not parse) and the result of reading all workouts.
   */
  function Decide(original: Option<Workout>, name: string, start: Option<int>, end: Option<int>,
                  entries: seq<WorkoutEntry>, stored: Result<seq<Workout>, Failure>): Outcome
  {
    if start.None? || end.None? then Unparsable
    else if IsBlank(name) || entries == [] then Ignored
    else if stored.Err? then Failed(stored.error)
    else
      var existing := FindNamed(stored.value, RecordName, name);
      if existing.Some? && (original.None? || existing.value.id != original.value.id) then NameRejected
      else if !AllChosen(entries) then NoExerciseChosen
      else if original.None? then Inserts(Workout(0, name, start.value, end.value, BuildExercises(entries)))
      else Updates(Workout(original.value.id, name, start.value, end.value, BuildExercises(entries)))
  }

  /**
   * The checks in their order: both times must parse; a blank name or an empty
   * list does nothing; a failed read is reported; a name another workout
   * carries is refused, where a new workout counts as different from every
   * stored one; an entry without an exercise stops the build; otherwise the
   * workout built from the entries is inserted with id 0, or updated under the
   * original id.
   */
  lemma DecideSpec(original: Option<Workout>, name: string, start: Option<int>, end: Option<int>,
                   entries: seq<WorkoutEntry>, stored: Result<seq<Workout>, Failure>)
    requires stored.Ok? ==> NamesDistinct(stored.value, RecordName)
    ensures var o := Decide(original, name, start, end, entries, stored);
      && (o.Unparsable? <==> start.None? || end.None?)
      && (o.Ignored? <==> !o.Unparsable? && (IsBlank(name) || entries == []))
      && (o.Failed? <==> !o.Unparsable? && !o.Ignored? && stored.Err?)
      && (o.Failed? ==> o.failure == stored.error)
      && (o.NameRejected? <==>
            && !o.Unparsable? && !o.Ignored? && stored.Ok?
            && exists i :: 0 <= i < |stored.value| && stored.value[i].name == name
                 && (original.None? || stored.value[i].id != original.value.id))
      && (o.NoExerciseChosen? <==>
            && !o.Unparsable? && !o.Ignored? && !o.Failed? && !o.NameRejected?
            && exists i :: 0 <= i < |entries| && entries[i].exercise.None?)
      && (o.Inserts? <==> !o.Unparsable? && !o.Ignored? && !o.Failed? && !o.NameRejected?
                          && !o.NoExerciseChosen? && original.None?)
      && ((o.Inserts? || o.Updates?) ==>
            && AllChosen(entries) && o.w.exercises == BuildExercises(entries) && o.w.name == name
            && o.w.start == start.value && o.w.end == end.value)
      && (o.Inserts? ==> o.w.id == 0)
      && (o.Updates? ==> o.w.id == original.value.id)
  {
    if stored.Ok? {
      FindNamedOnly(stored.value, RecordName, name);
    }
  }

  /** Editing a workout and keeping its stored name is not a duplicate. */
  lemma KeepingOwnNameAllowed(original: Workout, start: int, end: int, entries: seq<WorkoutEntry>, stored: seq<Workout>)
    requires NamesDistinct(stored, RecordName) && original in stored
    ensures !Decide(Some(original), original.name, Some(start), Some(end), entries, Ok(stored)).NameRejected?
  {
    FindNamedOnly(stored, RecordName, original.name);
  }

  /** The records list the rows: same length, and each has its row's id and name. */
  predicate Lists(records: seq<Workout>, rows: seq<WorkoutRow>)
  {
    |records| == |rows| && forall i :: 0 <= i < |rows| ==> records[i].id == rows[i].id && records[i].name == rows[i].name
  }

  /** A name the screen cannot find is not stored, so inserting it cannot violate the unique index. */
  lemma NotFoundIsFree(records: seq<Workout>, rows: seq<WorkoutRow>, name: string)
    requires Lists(records, rows) && FindNamed(records, RecordName, name).None?
    ensures !HasName(rows, WorkoutName, name)
  {
    forall i | 0 <= i < |rows| ensures rows[i].name != name {
      assert RecordName(records[i]) == rows[i].name;
    }
  }

  /** A name the screen finds only on the edited workout cannot make the update violate the unique index. */
  lemma FoundSelfIsFree(records: seq<Workout>, rows: seq<WorkoutRow>, id: int, name: string)
    requires Lists(records, rows) && NamesDistinct(rows, WorkoutName)
    requires var f := FindNamed(records, RecordName, name); f.None? || f.value.id == id
    ensures !WorkoutRepository.UpdateClashes(rows, id, name)
  {
    if FindNamed(records, RecordName, name).None? {
      NotFoundIsFree(records, rows, name);
    } else {
      forall i, j | 0 <= i < j < |records| ensures RecordName(records[i]) != RecordName(records[j]) {
        assert WorkoutName(rows[i]) != WorkoutName(rows[j]);
      }
      FindNamedOnly(records, RecordName, name);
      forall j | 0 <= j < |rows| && rows[j].name == name ensures rows[j].id == id {
        assert RecordName(records[j]) == name;
      }
    }
  }

  /**
   * The write Save decides on never violates the unique index: the screen's
   * own check already refused every name another stored workout carries.
   * Names are compared exactly, by the screen and by the index alike.
   */
  lemma DecidedWritesSucceed(original: Option<Workout>, name: string, start: Option<int>, end: Option<int>,
                             entries: seq<WorkoutEntry>, stored: Result<seq<Workout>, Failure>,
                             rows: seq<WorkoutRow>, next: int)
    requires NamesDistinct(rows, WorkoutName) && (stored.Ok? ==> Lists(stored.value, rows))
    requires original.Some? ==> original.value.id < next
    ensures var o := Decide(original, name, start, end, entries, stored);
      Writes(o) ==> FreeIn(rows, next, o)
  {
    var o := Decide(original, name, start, end, entries, stored);
    if o.Inserts? {
      NotFoundIsFree(stored.value, rows, name);
    } else if o.Updates? {
      FoundSelfIsFree(stored.value, rows, original.value.id, name);
    }
  }

  /** The rows listed by a successful read of the workouts, in the order of the table. */
  lemma ReadLists(db: Store)
    ensures WorkoutRepository.GetAll(db).Ok? ==> Lists(WorkoutRepository.GetAll(db).value, db.workouts)
  {
    WorkoutRepository.GetAllSpec(db);
  }

  /** Save calls the repository. */
  predicate Writes(o: Outcome) { o.Inserts? || o.Updates? }

  /** The three workout tables and their id counters. */
  datatype WorkoutTables = WorkoutTables(
    workouts: seq<WorkoutRow>, links: seq<WorkoutExerciseRow>, sets: seq<WorkoutSetRow>,
    nextWorkout: int, nextLink: int, nextSet: int)

  function TablesOf(db: Store): WorkoutTables
    reads db
  {
    WorkoutTables(db.workouts, db.workoutExercises, db.workoutSets,
                  db.nextWorkoutId, db.nextWorkoutExerciseId, db.nextWorkoutSetId)
  }

  /** The repository refuses the write: its span overlaps another stored workout. */
  predicate Clashes(before: WorkoutTables, o: Outcome)
    requires Writes(o)
  {
    if o.Inserts? then WorkoutRepository.OverlapsAny(before.workouts, o.w.start, o.w.end)
    else WorkoutRepository.OverlapsOther(before.workouts, o.w.id, o.w.start, o.w.end)
  }

  /**
   * The workout tables after writing the workout of `o`: for an insert, a new
   * row under the next id with its links and sets appended; for an update, the
   * row rewritten and its links and sets replaced by new ones.
   */
  predicate Written(before: WorkoutTables, after: WorkoutTables, o: Outcome)
    requires Writes(o)
  {
    && after.nextLink == before.nextLink + |o.w.exercises|
    && after.nextSet == before.nextSet + WorkoutRepository.SetCount(o.w.exercises)
    && (o.Inserts? ==>
          && after.nextWorkout == before.nextWorkout + 1
          && after.workouts == before.workouts + [WorkoutRow(before.nextWorkout, o.w.name, o.w.start, o.w.end)]
          && after.links == before.links + WorkoutRepository.LinkRows(before.nextWorkout, o.w.exercises, before.nextLink)
          && after.sets == before.sets + WorkoutRepository.SetRows(o.w.exercises, before.nextLink, before.nextSet))
    && (o.Updates? ==>
          && after.nextWorkout == before.nextWorkout
          && after.workouts == WorkoutRepository.RewriteWhere(before.workouts, o.w.id, o.w.name, o.w.start, o.w.end)
          && after.links == Reject(before.links, WorkoutLinkOwner, o.w.id)
               + WorkoutRepository.LinkRows(o.w.id, o.w.exercises, before.nextLink)
          && after.sets == RejectIn(before.sets, WorkoutSetOwner, WorkoutRepository.OwnedLinkIds(before.links, o.w.id))
               + WorkoutRepository.SetRows(o.w.exercises, before.nextLink, before.nextSet))
  }

  /** The write of `o` cannot violate the unique index of `rows`, and an update names an id below `next`. */
  predicate FreeIn(rows: seq<WorkoutRow>, next: int, o: Outcome)
    requires Writes(o)
  {
    && (o.Inserts? ==> !HasName(rows, WorkoutName, o.w.name))
    && (o.Updates? ==> !WorkoutRepository.UpdateClashes(rows, o.w.id, o.w.name) && o.w.id < next)
  }

  predicate Free(db: Store, o: Outcome)
    requires Writes(o)
    reads db
  {
    FreeIn(db.workouts, db.nextWorkoutId, o)
  }

  /**
   * Writes the workout Save decided on. The only failure left is an overlapping
   * span, and then nothing is written.
   */
  method Write(db: Store, o: Outcome) returns (r: Result<(), Failure>)
    requires db.Valid() && Writes(o) && Free(db, o)
    modifies db`workouts, db`nextWorkoutId, db`workoutExercises, db`nextWorkoutExerciseId,
      db`workoutSets, db`nextWorkoutSetId
    ensures db.Valid()
    ensures r.Err? <==> Clashes(old(TablesOf(db)), o)
    ensures r.Err? ==> r.error == OverlappingWorkout && TablesOf(db) == old(TablesOf(db))
    ensures r.Ok? ==> Written(old(TablesOf(db)), TablesOf(db), o)
  {
    if o.Inserts? {
      var inserted := WorkoutRepository.Insert(db, o.w);
      r := if inserted.Ok? then Ok(()) else Err(inserted.error);
    } else {
      r := WorkoutRepository.Update(db, o.w);
    }
  }

  /** The message shown under the times after Save; `refused` says the repository refused the write. */
  function ParseError(o: Outcome, refused: bool): Option<string>
  {
    match o
    case Unparsable => Some(BadDateTime)
    case Failed(f) => Some(Message(f))
    case NoExerciseChosen => Some(NoExercise)
    case Inserts(_) => if refused then Some(Message(OverlappingWorkout)) else None
    case Updates(_) => if refused then Some(Message(OverlappingWorkout)) else None
    case _ => None
  }

  /** The message shown under the name after Save. */
  function NameError(o: Outcome): Option<string> { if o.NameRejected? then Some(NameTaken) else None }

  /** The form's state. */
  class WorkoutEditor {
    const original: Option<Workout>
    var name: string
    var entries: seq<WorkoutEntry>
    var unsavedChanges: bool
    var parseErrorMessage: Option<string>
    var duplicateNameError: Option<string>
    /** The screen has been left (`navigator.pop()`). */
    var closed: bool

    /** The form opens with the edited workout's name and entries, or empty. */
    constructor(original: Option<Workout>)
      ensures this.original == original
      ensures name == (if original.Some? then original.value.name else "")
      ensures entries == (if original.Some? then EntriesOf(original.value.exercises) else [])
      ensures !unsavedChanges && parseErrorMessage == None && duplicateNameError == None && !closed
    {
      this.original := original;
      name := if original.Some? then original.value.name else "";
      entries := if original.Some? then EntriesOf(original.value.exercises) else [];
      unsavedChanges := false;
      parseErrorMessage := None;
      duplicateNameError := None;
      closed := false;
    }

    /**
     * The template dialog's Ok button: a chosen template replaces the entries,
     * one per template exercise with its reps at weight 0; without a choice
     * the form stays as it is.
     */
    method LoadTemplate(selected: Option<Template>)
      modifies this`entries, this`unsavedChanges
      ensures selected.Some? ==> entries == FromTemplate(selected.value.exercises) && unsavedChanges
      ensures selected.None? ==> entries == old(entries) && unsavedChanges == old(unsavedChanges)
    {
      if selected.Some? {
        var exercises := selected.value.exercises;
        entries := [];
        for i := 0 to |exercises|
          invariant entries == FromTemplate(exercises)[..i]
        {
          var te := exercises[i];
          entries := entries + [WorkoutEntry(Some(te.exercise), TemplatePairs(te.sets))];
        }
        assert FromTemplate(exercises)[..|exercises|] == FromTemplate(exercises);
        unsavedChanges := true;
      }
    }

    /** The form after Save: its two messages, and whether it is left. */
    method Show(o: Outcome, refused: bool)
      modifies this`parseErrorMessage, this`duplicateNameError, this`unsavedChanges, this`closed
      ensures parseErrorMessage == ParseError(o, refused) && duplicateNameError == NameError(o)
      ensures Writes(o) && !refused ==> !unsavedChanges && closed
      ensures !(Writes(o) && !refused) ==> unsavedChanges == old(unsavedChanges) && closed == old(closed)
    {
      parseErrorMessage := ParseError(o, refused);
      duplicateNameError := NameError(o);
      if Writes(o) && !refused {
        unsavedChanges := false;
        closed := true;
      }
    }

    /**
     * The Save button, given the parsed start and end. Both messages are
     * cleared first; a rejection sets one of them and writes nothing; an
     * overlapping span is refused by the repository and its message shown;
     * otherwise the workout is written and the screen left.
     */
    method Save(db: Store, start: Option<int>, end: Option<int>)
      requires db.Valid()
      requires original.Some? ==> original.value.id < db.nextWorkoutId
      modifies this`parseErrorMessage, this`duplicateNameError, this`unsavedChanges, this`closed
      modifies db`workouts, db`nextWorkoutId, db`workoutExercises, db`nextWorkoutExerciseId,
        db`workoutSets, db`nextWorkoutSetId
      ensures db.Valid()
      ensures var o := old(Decide(original, name, start, end, entries, WorkoutRepository.GetAll(db)));
        var refused := Writes(o) && Clashes(old(TablesOf(db)), o);
        && parseErrorMessage == ParseError(o, refused) && duplicateNameError == NameError(o)
        && (Writes(o) && !refused ==> !unsavedChanges && closed && Written(old(TablesOf(db)), TablesOf(db), o))
        && (!(Writes(o) && !refused) ==>
              TablesOf(db) == old(TablesOf(db)) && unsavedChanges == old(unsavedChanges) && closed == old(closed))
    {
      var o := Check(db, start, end);
      Apply(db, o);
    }

    /** What the handler does with the store and the form once the checks have settled `o`. */
    method Apply(db: Store, o: Outcome)
      requires db.Valid() && (Writes(o) ==> Free(db, o))
      modifies this`parseErrorMessage, this`duplicateNameError, this`unsavedChanges, this`closed
      modifies db`workouts, db`nextWorkoutId, db`workoutExercises, db`nextWorkoutExerciseId,
        db`workoutSets, db`nextWorkoutSetId
      ensures db.Valid()
      ensures var refused := Writes(o) && Clashes(old(TablesOf(db)), o);
        && parseErrorMessage == ParseError(o, refused) && duplicateNameError == NameError(o)
        && (Writes(o) && !refused ==> !unsavedChanges && closed && Written(old(TablesOf(db)), TablesOf(db), o))
        && (!(Writes(o) && !refused) ==>
              TablesOf(db) == old(TablesOf(db)) && unsavedChanges == old(unsavedChanges) && closed == old(closed))
    {
      assert (this as object) != (db as object);  // the form is not part of the store
      var r := Ok(());
      if Writes(o) {
        r := Write(db, o);
      }
      Show(o, r.Err?);
    }

    /** The checks of the Save handler, which only read. */
    method Check(db: Store, start: Option<int>, end: Option<int>) returns (o: Outcome)
      requires db.Valid()
      requires original.Some? ==> original.value.id < db.nextWorkoutId
      ensures o == Decide(original, name, start, end, entries, WorkoutRepository.GetAll(db))
      ensures Writes(o) ==> Free(db, o)
    {
      var stored := WorkoutRepository.GetAll(db);
      o := Decide(original, name, start, end, entries, stored);
      ReadLists(db);
      DecidedWritesSucceed(original, name, start, end, entries, stored, db.workouts, db.nextWorkoutId);
    }
  }
}
