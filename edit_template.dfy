/**
 * The screen that adds a new template or edits a stored one. The form holds a
 * name and a list of entries, each an optional exercise with the reps of its
 * sets. Saving checks the name, then the entries in list order, and stores the
 * template built from the entries: entry i at position i, its j-th set
 * numbered j + 1.
 */
module EditTemplate {

  import opened Wrappers
  import opened Seqs
  import opened Model
  import opened Tables
  import opened Text
  import ExerciseRepository
  import TemplateRepository

  /** One row of the form: the chosen exercise, if any, and the reps of each set. */
  datatype TemplateEntry = TemplateEntry(exercise: Option<Exercise>, sets: seq<int>)

  function RecordName(t: Template): string { t.name }

  const NameRequired := "Template name is required!"
  const NameTaken := "A template with this name already exists!"
  const NoExercises := "A template must have at least one exercise."
  const NoExercise := "Please select an exercise."
  const NoSets := "Each exercise must have at least one set."
  const BadReps := "Each set must have reps > 0."

  // ---------------------------------------------------------------------------
  // Between records and entries
  // ---------------------------------------------------------------------------

  function RepsOf(sets: seq<TemplateSet>): (r: seq<int>)
    ensures |r| == |sets|
  {
    seq(|sets|, j requires 0 <= j < |sets| => sets[j].reps)
  }

  /** The form's entries for a stored template's exercises: each exercise with the reps of its sets. */
  function EntriesOf(exercises: seq<TemplateExercise>): (r: seq<TemplateEntry>)
    ensures |r| == |exercises|
  {
    seq(|exercises|, i requires 0 <= i < |exercises| => TemplateEntry(Some(exercises[i].exercise), RepsOf(exercises[i].sets)))
  }

  /** The sets built from the reps of an entry: the j-th numbered j + 1. */
  function BuildSets(reps: seq<int>): (r: seq<TemplateSet>)
    ensures |r| == |reps|
    ensures forall j :: 0 <= j < |reps| ==> r[j].setNumber == j + 1 && r[j].reps == reps[j]
  {
    seq(|reps|, j requires 0 <= j < |reps| => TemplateSet(0, 0, j + 1, reps[j]))
  }

  predicate AllChosen(entries: seq<TemplateEntry>)
  {
    forall i :: 0 <= i < |entries| ==> entries[i].exercise.Some?
  }

  /** The exercises built from the entries: the i-th at position i, with no ids yet. */
  function BuildExercises(entries: seq<TemplateEntry>): (r: seq<TemplateExercise>)
    requires AllChosen(entries)
    ensures |r| == |entries|
    ensures forall i :: 0 <= i < |entries| ==>
      r[i].order == i && r[i].exercise == entries[i].exercise.value && r[i].sets == BuildSets(entries[i].sets)
  {
    seq(|entries|, i requires 0 <= i < |entries| =>
      TemplateExercise(0, 0, entries[i].exercise.value, i, BuildSets(entries[i].sets)))
  }

  /** Building the entries and loading the result back into a form gives the same entries. */
  lemma LoadAfterBuild(entries: seq<TemplateEntry>)
    requires AllChosen(entries)
    ensures EntriesOf(BuildExercises(entries)) == entries
  {
    var built := BuildExercises(entries);
    forall i | 0 <= i < |entries| ensures EntriesOf(built)[i] == entries[i] {
      assert RepsOf(built[i].sets) == entries[i].sets;
    }
  }

  /** Every entry names an exercise as it is stored. */
  predicate ChosenFrom(entries: seq<TemplateEntry>, records: seq<Exercise>)
  {
    forall i :: 0 <= i < |entries| ==>
      entries[i].exercise.Some? && FindExercise(records, entries[i].exercise.value.id) == entries[i].exercise
  }

  /** Built exercises ascend by position, their sets by number: what a read needs to give them back. */
  lemma BuiltWellFormed(entries: seq<TemplateEntry>, records: seq<Exercise>)
    requires ChosenFrom(entries, records)
    ensures TemplateRepository.WellFormedInput(BuildExercises(entries), records)
  {
  }

  /**
   * A stored template's records, loaded back into the form, give the entries it
   * was built from: saving and reopening shows the same form.
   */
  lemma {:induction false} ReopenedEntries(entries: seq<TemplateEntry>, templateId: int, linkBase: int, setBase: int)
    requires AllChosen(entries)
    ensures EntriesOf(TemplateRepository.StoredExercises(BuildExercises(entries), templateId, linkBase, setBase)) == entries
  {
    var built := BuildExercises(entries);
    var stored := TemplateRepository.StoredExercises(built, templateId, linkBase, setBase);
    forall i | 0 <= i < |entries| ensures EntriesOf(stored)[i] == entries[i] {
      assert stored[i] == TemplateRepository.StoredExercise(built, i, templateId, linkBase, setBase);
      assert RepsOf(stored[i].sets) == entries[i].sets;
    }
  }

  // ---------------------------------------------------------------------------
  // Checking the entries
  // ---------------------------------------------------------------------------

  /** What is wrong with one entry, checked in this order. */
  function EntryProblem(e: TemplateEntry): (r: Option<string>)
    ensures r.None? <==> e.exercise.Some? && e.sets != [] && forall j :: 0 <= j < |e.sets| ==> e.sets[j] > 0
  {
    if e.exercise.None? then Some(NoExercise)
    else if e.sets == [] then Some(NoSets)
    else if exists j :: 0 <= j < |e.sets| && e.sets[j] <= 0 then Some(BadReps)
    else None
  }

  /** The problem of the first entry that has one. */
  function FirstProblem(entries: seq<TemplateEntry>): Option<string>
  {
    if entries == [] then None
    else if EntryProblem(entries[0]).Some? then EntryProblem(entries[0])
    else FirstProblem(entries[1..])
  }

  /**
   * The entries pass exactly when every entry passes; otherwise the message is
   * that of the first entry that fails.
   */
  lemma {:induction false} FirstProblemSpec(entries: seq<TemplateEntry>)
    ensures FirstProblem(entries).None? <==> forall i :: 0 <= i < |entries| ==> EntryProblem(entries[i]).None?
    ensures FirstProblem(entries).Some? ==>
      exists i :: 0 <= i < |entries| && FirstProblem(entries) == EntryProblem(entries[i])
        && forall j :: 0 <= j < i ==> EntryProblem(entries[j]).None?
  {
    if entries != [] {
      FirstProblemSpec(entries[1..]);
      assert forall i :: 1 <= i < |entries| ==> entries[i] == entries[1..][i - 1];
      if EntryProblem(entries[0]).None? && FirstProblem(entries).Some? {
        var i :| 0 <= i < |entries[1..]| && FirstProblem(entries[1..]) == EntryProblem(entries[1..][i])
          && forall j :: 0 <= j < i ==> EntryProblem(entries[1..][j]).None?;
        assert FirstProblem(entries) == EntryProblem(entries[i + 1]);
      }
    }
  }

  /** Passing entries all name an exercise. */
  lemma PassingEntriesChosen(entries: seq<TemplateEntry>)
    requires FirstProblem(entries).None?
    ensures AllChosen(entries)
  {
    FirstProblemSpec(entries);
  }

  /** The `for` loop over the entries, returning at the first problem. */
  method CheckEntries(entries: seq<TemplateEntry>) returns (problem: Option<string>)
    ensures problem == FirstProblem(entries)
  {
    for i := 0 to |entries|
      invariant FirstProblem(entries[i..]) == FirstProblem(entries)
    {
      assert entries[i..][1..] == entries[i + 1..];
      var entry := entries[i];
      if entry.exercise.None? {
        return Some(NoExercise);
      }
      if entry.sets == [] {
        return Some(NoSets);
      }
      if exists j :: 0 <= j < |entry.sets| && entry.sets[j] <= 0 {
        return Some(BadReps);
      }
    }
    return None;
  }

  // ---------------------------------------------------------------------------
  // The Save handler
  // ---------------------------------------------------------------------------

  /** What pressing Save does. */
  datatype Outcome =
    | NameRejected(message: string)        // shown as the name error
    | Escaped(failure: Failure)            // reading the templates raised it; nothing handles it
    | ExercisesRejected(message: string)   // shown as the exercise error
    | Inserts(t: Template)
    | Updates(t: Template)

  /**
   * The checks on the name, over the form (`original` is the template being
   * edited, absent for a new one) and the result of reading all templates:
   * None when the name passes.
   */
  function NameCheck(original: Option<Template>, name: string, stored: Result<seq<Template>, Failure>): (r: Option<Outcome>)
    ensures r.Some? ==> r.value.NameRejected? || r.value.Escaped?
  {
    if IsBlank(name) then Some(NameRejected(NameRequired))
    else if stored.Err? then Some(Escaped(stored.error))
    else
      var existing := FindNamed(stored.value, RecordName, name);
      if existing.Some? && (original.None? || existing.value.id != original.value.id) then Some(NameRejected(NameTaken))
      else None
  }

  /** The checks on the entries, given the first problem among them, and the write they lead to. */
  function EntriesCheck(original: Option<Template>, name: string, entries: seq<TemplateEntry>, problem: Option<string>): (r: Outcome)
    requires problem == FirstProblem(entries)
    ensures r.ExercisesRejected? || r.Inserts? || r.Updates?
  {
    if entries == [] then ExercisesRejected(NoExercises)
    else if problem.Some? then ExercisesRejected(problem.value)
    else
      PassingEntriesChosen(entries);
      if original.None? then Inserts(Template(0, name, BuildExercises(entries)))
      else Updates(Template(original.value.id, name, BuildExercises(entries)))
  }

  /** The Save handler as one decision. */
  function Decide(original: Option<Template>, name: string, entries: seq<TemplateEntry>,
                  stored: Result<seq<Template>, Failure>): Outcome
  {
    var n := NameCheck(original, name, stored);
    if n.Some? then n.value else EntriesCheck(original, name, entries, FirstProblem(entries))
  }

  /** Another stored template than the one being edited carries the name. */
  predicate NameElsewhere(original: Option<Template>, name: string, stored: seq<Template>)
  {
    exists i :: 0 <= i < |stored| && stored[i].name == name
      && (original.None? || stored[i].id != original.value.id)
  }

  /** The name checks: blank, then a failed read, then a name another template carries. */
  lemma NameCheckSpec(original: Option<Template>, name: string, stored: Result<seq<Template>, Failure>)
    requires stored.Ok? ==> NamesDistinct(stored.value, RecordName)
    ensures var n := NameCheck(original, name, stored);
      && (IsBlank(name) ==> n == Some(NameRejected(NameRequired)))
      && (!IsBlank(name) && stored.Err? ==> n == Some(Escaped(stored.error)))
      && (!IsBlank(name) && stored.Ok? ==>
            && (n.Some? <==> NameElsewhere(original, name, stored.value))
            && (n.Some? ==> n == Some(NameRejected(NameTaken))))
  {
    if !IsBlank(name) && stored.Ok? {
      FindNamedOnly(stored.value, RecordName, name);
    }
  }

  /** The list is not empty and every entry passes. */
  predicate EntriesPass(entries: seq<TemplateEntry>)
  {
    entries != [] && forall i :: 0 <= i < |entries| ==> EntryProblem(entries[i]).None?
  }

  /** The entry checks: an empty list, then the first entry with a problem, otherwise the write. */
  lemma EntriesCheckSpec(original: Option<Template>, name: string, entries: seq<TemplateEntry>)
    ensures var r := EntriesCheck(original, name, entries, FirstProblem(entries));
      var entriesOk := EntriesPass(entries);
      && (r.ExercisesRejected? <==> !entriesOk)
      && (entries == [] ==> r == ExercisesRejected(NoExercises))
      && (entries != [] && r.ExercisesRejected? ==>
            exists i :: 0 <= i < |entries| && EntryProblem(entries[i]) == Some(r.message)
              && forall j :: 0 <= j < i ==> EntryProblem(entries[j]).None?)
      && (r.Inserts? <==> entriesOk && original.None?)
      && (r.Updates? <==> entriesOk && original.Some?)
      && (r.Inserts? ==> r.t == Template(0, name, BuildExercises(entries)))
      && (r.Updates? ==> r.t == Template(original.value.id, name, BuildExercises(entries)))
  {
    FirstProblemSpec(entries);
  }

  /**
   * The checks in their order, each both ways: a blank name first, a failed
   * read next, a name another template carries next, then an empty list, then
   * the first entry with a problem; a form that passes all of them is saved,
   * inserted with id 0 as a new template or updated under the original id,
   * built from the entries.
   */
  lemma DecideSpec(original: Option<Template>, name: string, entries: seq<TemplateEntry>,
                   stored: Result<seq<Template>, Failure>)
    requires stored.Ok? ==> NamesDistinct(stored.value, RecordName)
    ensures var o := Decide(original, name, entries, stored);
      var dup := stored.Ok? && NameElsewhere(original, name, stored.value);
      var nameOk := !IsBlank(name) && stored.Ok? && !dup;
      var entriesOk := EntriesPass(entries);
      && (o.NameRejected? <==> IsBlank(name) || (stored.Ok? && dup))
      && (IsBlank(name) ==> o == NameRejected(NameRequired))
      && (!IsBlank(name) && dup ==> o == NameRejected(NameTaken))
      && (o.Escaped? <==> !IsBlank(name) && stored.Err?)
      && (o.Escaped? ==> o == Escaped(stored.error))
      && (o.ExercisesRejected? <==> nameOk && !entriesOk)
      && (nameOk && entries == [] ==> o == ExercisesRejected(NoExercises))
      && (nameOk && entries != [] && o.ExercisesRejected? ==>
            exists i :: 0 <= i < |entries| && EntryProblem(entries[i]) == Some(o.message)
              && forall j :: 0 <= j < i ==> EntryProblem(entries[j]).None?)
      && (o.Inserts? <==> nameOk && entriesOk && original.None?)
      && (o.Updates? <==> nameOk && entriesOk && original.Some?)
      && (o.Inserts? ==> o.t == Template(0, name, BuildExercises(entries)))
      && (o.Updates? ==> o.t == Template(original.value.id, name, BuildExercises(entries)))
  {
    NameCheckSpec(original, name, stored);
    var n := NameCheck(original, name, stored);
    if n.None? {
      EntriesCheckSpec(original, name, entries);
      assert Decide(original, name, entries, stored) == EntriesCheck(original, name, entries, FirstProblem(entries));
    } else {
      assert Decide(original, name, entries, stored) == n.value;
    }
  }

  /** Renaming an edited template to its own stored name is allowed. */
  lemma KeepingOwnNameAllowed(original: Template, entries: seq<TemplateEntry>, stored: seq<Template>)
    requires NamesDistinct(stored, RecordName) && original in stored && !IsBlank(original.name)
    ensures !Decide(Some(original), original.name, entries, Ok(stored)).NameRejected?
  {
    FindNamedOnly(stored, RecordName, original.name);
  }

  /** The records list the rows: same length, and each has its row's id and name. */
  predicate Lists(records: seq<Template>, rows: seq<TemplateRow>)
  {
    |records| == |rows| && forall i :: 0 <= i < |rows| ==> records[i].id == rows[i].id && records[i].name == rows[i].name
  }

  /** A name the screen cannot find is not stored, so inserting it cannot violate the unique index. */
  lemma NotFoundIsFree(records: seq<Template>, rows: seq<TemplateRow>, name: string)
    requires Lists(records, rows) && FindNamed(records, RecordName, name).None?
    ensures !HasName(rows, TemplateName, name)
  {
    forall i | 0 <= i < |rows| ensures rows[i].name != name {
      assert RecordName(records[i]) == rows[i].name;
    }
  }

  /** A name the screen finds only on the edited template cannot make the update violate the unique index. */
  lemma FoundSelfIsFree(records: seq<Template>, rows: seq<TemplateRow>, id: int, name: string)
    requires Lists(records, rows) && NamesDistinct(rows, TemplateName)
    requires var f := FindNamed(records, RecordName, name); f.None? || f.value.id == id
    ensures !TemplateRepository.UpdateClashes(rows, id, name)
  {
    if FindNamed(records, RecordName, name).None? {
      NotFoundIsFree(records, rows, name);
    } else {
      forall i, j | 0 <= i < j < |records| ensures RecordName(records[i]) != RecordName(records[j]) {
        assert TemplateName(rows[i]) != TemplateName(rows[j]);
      }
      FindNamedOnly(records, RecordName, name);
      forall j | 0 <= j < |rows| && rows[j].name == name ensures rows[j].id == id {
        assert RecordName(records[j]) == name;
      }
    }
  }

  /**
   * The write Save decides on never violates the unique index, so the
   * repository call cannot fail: the screen's own check already refused every
   * name another stored template carries. Names are compared exactly, by the
   * screen and by the index alike.
   */
  lemma DecidedWritesSucceed(original: Option<Template>, name: string, entries: seq<TemplateEntry>,
                             stored: Result<seq<Template>, Failure>, rows: seq<TemplateRow>)
    requires NamesDistinct(rows, TemplateName) && (stored.Ok? ==> Lists(stored.value, rows))
    ensures var o := Decide(original, name, entries, stored);
      && (o.Inserts? ==> !HasName(rows, TemplateName, name))
      && (o.Updates? ==> !TemplateRepository.UpdateClashes(rows, o.t.id, name))
  {
    if NameCheck(original, name, stored).None? {
      if original.None? {
        NotFoundIsFree(stored.value, rows, name);
      } else {
        FoundSelfIsFree(stored.value, rows, original.value.id, name);
      }
    }
  }

  /** Save writes the template. */
  predicate Writes(o: Outcome) { o.Inserts? || o.Updates? }

  /** The name error Save leaves on the form. */
  function NameError(o: Outcome): Option<string> { if o.NameRejected? then Some(o.message) else None }

  /** The exercise error Save leaves on the form. */
  function ExerciseError(o: Outcome): Option<string> { if o.ExercisesRejected? then Some(o.message) else None }

  /** The failure that escapes Save. */
  function EscapedFailure(o: Outcome): Option<Failure> { if o.Escaped? then Some(o.failure) else None }

  /** The three template tables and their id counters. */
  datatype TemplateTables = TemplateTables(
    templates: seq<TemplateRow>, links: seq<TemplateExerciseRow>, sets: seq<TemplateSetRow>,
    nextTemplate: int, nextLink: int, nextSet: int)

  function TablesOf(db: Store): TemplateTables
    reads db
  {
    TemplateTables(db.templates, db.templateExercises, db.templateSets,
                   db.nextTemplateId, db.nextTemplateExerciseId, db.nextTemplateSetId)
  }

  /**
   * The template tables after writing the template of `o`: for an insert, a new
   * row under the next id with its links and sets appended; for an update, the
   * row renamed and its links and sets replaced by new ones.
   */
  predicate Written(before: TemplateTables, after: TemplateTables, o: Outcome)
    requires o.Inserts? || o.Updates?
  {
    && after.nextLink == before.nextLink + |o.t.exercises|
    && after.nextSet == before.nextSet + TemplateRepository.SetCount(o.t.exercises)
    && (o.Inserts? ==>
          && after.nextTemplate == before.nextTemplate + 1
          && after.templates == before.templates + [TemplateRow(before.nextTemplate, o.t.name)]
          && after.links == before.links + TemplateRepository.LinkRows(before.nextTemplate, o.t.exercises, before.nextLink)
          && after.sets == before.sets + TemplateRepository.SetRows(o.t.exercises, before.nextLink, before.nextSet))
    && (o.Updates? ==>
          && after.nextTemplate == before.nextTemplate
          && after.templates == TemplateRepository.RenameWhere(before.templates, o.t.id, o.t.name)
          && after.links == Reject(before.links, TemplateLinkOwner, o.t.id)
               + TemplateRepository.LinkRows(o.t.id, o.t.exercises, before.nextLink)
          && after.sets == RejectIn(before.sets, TemplateSetOwner, TemplateRepository.OwnedLinkIds(before.links, o.t.id))
               + TemplateRepository.SetRows(o.t.exercises, before.nextLink, before.nextSet))
  }

  /** The write of `o` cannot violate the unique index, and an update names a stored id. */
  predicate Free(db: Store, o: Outcome)
    requires o.Inserts? || o.Updates?
    reads db
  {
    && (o.Inserts? ==> !HasName(db.templates, TemplateName, o.t.name))
    && (o.Updates? ==> !TemplateRepository.UpdateClashes(db.templates, o.t.id, o.t.name) && o.t.id < db.nextTemplateId)
  }

  /** Writes the template Save decided on; the repository call cannot fail. */
  method Write(db: Store, o: Outcome)
    requires db.Valid() && (o.Inserts? || o.Updates?) && Free(db, o)
    modifies db`templates, db`nextTemplateId, db`templateExercises, db`nextTemplateExerciseId,
      db`templateSets, db`nextTemplateSetId
    ensures db.Valid() && Written(old(TablesOf(db)), TablesOf(db), o)
  {
    if o.Inserts? {
      var r := TemplateRepository.Insert(db, o.t);
      assert r.Ok?;
    } else {
      var r := TemplateRepository.Update(db, o.t);
      assert r.Ok?;
    }
  }

  /** The form's state. */
  class TemplateEditor {
    const original: Option<Template>
    var name: string
    var entries: seq<TemplateEntry>
    var unsavedChanges: bool
    var nameError: Option<string>
    var exerciseError: Option<string>
    var generalError: Option<string>
    /** The screen has been left (`navigator.pop()`). */
    var closed: bool

    /** The form opens with the edited template's name and entries, or empty. */
    constructor(original: Option<Template>)
      ensures this.original == original
      ensures name == (if original.Some? then original.value.name else "")
      ensures entries == (if original.Some? then EntriesOf(original.value.exercises) else [])
      ensures !unsavedChanges && nameError == None && exerciseError == None && generalError == None && !closed
    {
      this.original := original;
      name := if original.Some? then original.value.name else "";
      entries := if original.Some? then EntriesOf(original.value.exercises) else [];
      unsavedChanges := false;
      nameError := None;
      exerciseError := None;
      generalError := None;
      closed := false;
    }

    /**
     * The Save button. The errors are cleared first; the name is checked, then
     * the entries in a loop; a rejection sets one error and writes nothing; a
     * failing read of the templates escapes the handler and is returned;
     * otherwise the template is written and the screen left.
     */
    method Save(db: Store) returns (escaped: Option<Failure>)
      requires db.Valid()
      requires original.Some? ==> original.value.id < db.nextTemplateId
      modifies this`nameError, this`exerciseError, this`generalError, this`unsavedChanges, this`closed
      modifies db`templates, db`nextTemplateId, db`templateExercises, db`nextTemplateExerciseId,
        db`templateSets, db`nextTemplateSetId
      ensures db.Valid()
      ensures var o := old(Decide(original, name, entries, TemplateRepository.GetAll(db)));
        && escaped == EscapedFailure(o) && nameError == NameError(o) && exerciseError == ExerciseError(o)
        && generalError == None
        && (Writes(o) ==> !unsavedChanges && closed && Written(old(TablesOf(db)), TablesOf(db), o))
        && (!Writes(o) ==> unchanged(db) && unsavedChanges == old(unsavedChanges) && closed == old(closed))
    {
      assert (this as object) != (db as object);  // the form is not part of the store
      var o := Check(db);
      escaped := EscapedFailure(o);
      Show(o);
      if Writes(o) {
        Write(db, o);
      }
    }

    /** The form after the checks have settled `o`: its errors, and whether it is left. */
    method Show(o: Outcome)
      modifies this`nameError, this`exerciseError, this`generalError, this`unsavedChanges, this`closed
      ensures nameError == NameError(o) && exerciseError == ExerciseError(o) && generalError == None
      ensures Writes(o) ==> !unsavedChanges && closed
      ensures !Writes(o) ==> unsavedChanges == old(unsavedChanges) && closed == old(closed)
    {
      nameError := NameError(o);
      exerciseError := ExerciseError(o);
      generalError := None;
      if Writes(o) {
        unsavedChanges := false;
        closed := true;
      }
    }

    /**
     * The checks of the Save handler, which only read: the name first, then the
     * entries one by one in a loop.
     */
    method Check(db: Store) returns (o: Outcome)
      requires db.Valid()
      requires original.Some? ==> original.value.id < db.nextTemplateId
      ensures o == Decide(original, name, entries, TemplateRepository.GetAll(db))
      ensures Writes(o) ==> Free(db, o)
    {
      var stored := TemplateRepository.GetAll(db);
      var checked := NameCheck(original, name, stored);
      if checked.Some? {
        return checked.value;
      }
      var problem := None;
      if entries != [] {
        problem := CheckEntries(entries);
      }
      o := EntriesCheck(original, name, entries, problem);
      TemplateRepository.GetAllSpec(db);
      assert stored.Ok? ==> Lists(stored.value, db.templates);
      DecidedWritesSucceed(original, name, entries, stored, db.templates);
    }
  }
}
