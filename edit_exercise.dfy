/**
 * The screen that adds a new exercise or edits a stored one. Saving does
 * nothing while a field is blank, refuses a name another exercise already
 * carries, and otherwise updates the edited exercise or inserts a new one.
 */
module EditExercise {

  import opened Wrappers
  import opened Seqs
  import opened Model
  import opened Tables
  import opened Text
  import ExerciseRepository

  function RecordName(e: Exercise): string { e.name }

  const DuplicateMessage := "An exercise with this name already exists!"

  /** What pressing Save does with the form. */
  datatype Decision =
    | Ignored                  // a field is blank: nothing happens
    | Duplicate                // the name is taken by another exercise
    | Updates(e: Exercise)     // the edited exercise is updated
    | Inserts(e: Exercise)     // a new exercise is inserted

  /**
   * The Save handler's decision over the form (`original` is the exercise
   * being edited, absent for a new one) and the stored exercises.
   */
  function Decide(original: Option<Exercise>, name: string, description: string, kind: string,
                  stored: seq<Exercise>): Decision
  {
    if IsBlank(name) || IsBlank(description) || IsBlank(kind) then Ignored
    else
      var existing := FindNamed(stored, RecordName, name);
      if existing.Some? && (original.None? || existing.value.id != original.value.id) then Duplicate
      else if original.Some? then Updates(Exercise(original.value.id, name, description, kind))
      else Inserts(Exercise(0, name, description, kind))
  }

  /**
   * Save ignores a form with a blank field; refuses a name that another stored
   * exercise carries, where a new exercise counts as different from every
   * stored one; and otherwise updates under the original id or inserts with id 0.
   */
  lemma DecideSpec(original: Option<Exercise>, name: string, description: string, kind: string,
                   stored: seq<Exercise>)
    requires NamesDistinct(stored, RecordName)
    ensures var d := Decide(original, name, description, kind, stored);
      && (d.Ignored? <==> IsBlank(name) || IsBlank(description) || IsBlank(kind))
      && (d.Duplicate? <==> !d.Ignored? && exists i :: 0 <= i < |stored| && stored[i].name == name
                                            && (original.None? || stored[i].id != original.value.id))
      && (d.Updates? <==> !d.Ignored? && !d.Duplicate? && original.Some?)
      && (d.Updates? ==> d.e == Exercise(original.value.id, name, description, kind))
      && (d.Inserts? ==> d.e == Exercise(0, name, description, kind))
  {
    FindNamedOnly(stored, RecordName, name);
  }

  /** Editing an exercise and keeping its stored name is not a duplicate. */
  lemma KeepingOwnNameAllowed(original: Exercise, description: string, kind: string, stored: seq<Exercise>)
    requires NamesDistinct(stored, RecordName) && original in stored
    requires !IsBlank(original.name) && !IsBlank(description) && !IsBlank(kind)
    ensures Decide(Some(original), original.name, description, kind, stored)
         == Updates(Exercise(original.id, original.name, description, kind))
  {
    FindNamedOnly(stored, RecordName, original.name);
  }

  /** A name the screen cannot find is not stored, so inserting it cannot violate the unique index. */
  lemma NotFoundIsFree(rows: seq<ExerciseRow>, name: string)
    requires FindNamed(ExerciseRepository.Records(rows), RecordName, name).None?
    ensures !HasName(rows, ExerciseName, name)
  {
    var records := ExerciseRepository.Records(rows);
    forall i | 0 <= i < |rows| ensures rows[i].name != name {
      assert RecordName(records[i]) == rows[i].name;
    }
  }

  /** A name the screen finds only on the edited exercise cannot make the update violate the unique index. */
  lemma FoundSelfIsFree(rows: seq<ExerciseRow>, e: Exercise)
    requires NamesDistinct(rows, ExerciseName)
    requires var f := FindNamed(ExerciseRepository.Records(rows), RecordName, e.name); f.None? || f.value.id == e.id
    ensures !ExerciseRepository.UpdateClashes(rows, e)
  {
    var records := ExerciseRepository.Records(rows);
    if FindNamed(records, RecordName, e.name).None? {
      NotFoundIsFree(rows, e.name);
    } else {
      forall i, j | 0 <= i < j < |records| ensures RecordName(records[i]) != RecordName(records[j]) {
        assert ExerciseName(rows[i]) != ExerciseName(rows[j]);
      }
      FindNamedOnly(records, RecordName, e.name);
      forall j | 0 <= j < |rows| && rows[j].name == e.name ensures rows[j].id == e.id {
        assert RecordName(records[j]) == e.name;
      }
    }
  }

  /**
   * The write Save decides on never violates the unique index, so the
   * repository call cannot fail: the screen's own check already refused every
   * name another stored exercise carries. Names are compared exactly, by the
   * screen and by the index alike.
   */
  lemma DecidedWritesSucceed(original: Option<Exercise>, name: string, description: string, kind: string,
                             rows: seq<ExerciseRow>)
    requires NamesDistinct(rows, ExerciseName)
    ensures var d := Decide(original, name, description, kind, ExerciseRepository.Records(rows));
      && (d.Updates? ==> !ExerciseRepository.UpdateClashes(rows, d.e))
      && (d.Inserts? ==> !HasName(rows, ExerciseName, d.e.name))
  {
    var d := Decide(original, name, description, kind, ExerciseRepository.Records(rows));
    if d.Updates? {
      FoundSelfIsFree(rows, d.e);
    } else if d.Inserts? {
      NotFoundIsFree(rows, name);
    }
  }

  /** The form's state. */
  class ExerciseEditor {
    const original: Option<Exercise>
    var name: string
    var description: string
    var kind: string
    var unsavedChanges: bool
    var duplicateNameError: Option<string>
    /** The screen has been left (`navigator.pop()`). */
    var closed: bool

    /** The form opens with the edited exercise's fields, or empty. */
    constructor(original: Option<Exercise>)
      ensures this.original == original
      ensures name == (if original.Some? then original.value.name else "")
      ensures description == (if original.Some? then original.value.description else "")
      ensures kind == (if original.Some? then original.value.kind else "")
      ensures !unsavedChanges && duplicateNameError == None && !closed
    {
      this.original := original;
      name := if original.Some? then original.value.name else "";
      description := if original.Some? then original.value.description else "";
      kind := if original.Some? then original.value.kind else "";
      unsavedChanges := false;
      duplicateNameError := None;
      closed := false;
    }

    /**
     * The Save button. The repository call it makes cannot fail: with names
     * compared exactly, the screen's own duplicate check rules out every
     * unique-index violation.
     */
    method Save(db: Store)
      requires db.Valid()
      modifies this`unsavedChanges, this`duplicateNameError, this`closed, db`exercises, db`nextExerciseId
      ensures db.Valid()
      ensures var d := Decide(original, name, description, kind, old(ExerciseRepository.GetAll(db)));
        && (d.Ignored? ==> unchanged(this) && unchanged(db))
        && (d.Duplicate? ==>
              && duplicateNameError == Some(DuplicateMessage)
              && unsavedChanges == old(unsavedChanges) && closed == old(closed) && unchanged(db))
        && (d.Updates? ==>
              && db.exercises == ExerciseRepository.RenameWhere(old(db.exercises), d.e.id, d.e)
              && db.nextExerciseId == old(db.nextExerciseId))
        && (d.Inserts? ==>
              && db.exercises == old(db.exercises) + [ExerciseRepository.NewRow(old(db.nextExerciseId), d.e)]
              && db.nextExerciseId == old(db.nextExerciseId) + 1)
        && ((d.Updates? || d.Inserts?) ==>
              !unsavedChanges && closed && duplicateNameError == old(duplicateNameError))
    {
      var d := Decide(original, name, description, kind, ExerciseRepository.GetAll(db));
      DecidedWritesSucceed(original, name, description, kind, db.exercises);
      match d
      case Ignored =>
      case Duplicate =>
        duplicateNameError := Some(DuplicateMessage);
      case Updates(e) =>
        var r := ExerciseRepository.Update(db, e);
        assert r.Ok?;
        unsavedChanges := false;
        closed := true;
      case Inserts(e) =>
        var r := ExerciseRepository.Insert(db, e);
        assert r.Ok?;
        unsavedChanges := false;
        closed := true;
    }
  }
}
