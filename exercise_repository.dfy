/**
 * The exercise repository: reads, inserts, updates and deletes rows of the
 * exercise table, and seeds the default catalog into an empty table.
 * Each method is one transaction: when it fails, nothing it did remains.
 */
module ExerciseRepository {

  import opened Wrappers
  import opened Seqs
  import opened Model
  import opened Tables

  function ToExercise(row: ExerciseRow): Exercise
  {
    Exercise(row.id, row.name, row.description, row.kind)
  }

  /** The records `getAll` builds from the stored rows. */
  function Records(rows: seq<ExerciseRow>): (r: seq<Exercise>)
    ensures |r| == |rows|
    ensures forall i :: 0 <= i < |rows| ==>
      r[i].id == rows[i].id && r[i].name == rows[i].name
      && r[i].description == rows[i].description && r[i].kind == rows[i].kind
  {
    seq(|rows|, i requires 0 <= i < |rows| => ToExercise(rows[i]))
  }

  /** `getAll`: every stored exercise, in storage order. */
  function GetAll(db: Store): seq<Exercise>
    reads db
  {
    Records(db.exercises)
  }

  /** How many records carry `name`. */
  function CountName(es: seq<Exercise>, name: string): nat
  {
    if es == [] then 0
    else CountName(es[..|es| - 1], name) + (if es[|es| - 1].name == name then 1 else 0)
  }

  /** Under a unique name index a name occurs at most once among the records. */
  lemma {:induction false} CountNameAtMostOne(rows: seq<ExerciseRow>, name: string)
    requires NamesDistinct(rows, ExerciseName)
    ensures CountName(Records(rows), name) == (if HasName(rows, ExerciseName, name) then 1 else 0)
  {
    if rows != [] {
      var init := rows[..|rows| - 1];
      assert Records(rows)[..|rows| - 1] == Records(init);
      assert NamesDistinct(init, ExerciseName);
      CountNameAtMostOne(init, name);
      if rows[|rows| - 1].name == name {
        assert !HasName(init, ExerciseName, name);
      }
      assert HasName(rows, ExerciseName, name) <==>
        HasName(init, ExerciseName, name) || rows[|rows| - 1].name == name;
    }
  }

  /** The row an insert stores for `e`, under the id the counter hands out. */
  function NewRow(id: int, e: Exercise): ExerciseRow
  {
    ExerciseRow(id, e.name, e.description, e.kind)
  }

  /**
   * `insert`: stores one new row with a fresh id and returns the id; a name that
   * is already stored violates the unique index and nothing is written.
   */
  method Insert(db: Store, e: Exercise) returns (r: Result<int, Failure>)
    requires db.Valid()
    modifies db`exercises, db`nextExerciseId
    ensures db.Valid()
    ensures r.Err? <==> HasName(old(db.exercises), ExerciseName, e.name)
    ensures r.Err? ==> r.error == DuplicateName
    ensures r.Err? ==> db.exercises == old(db.exercises) && db.nextExerciseId == old(db.nextExerciseId)
    ensures r.Ok? ==> r.value == old(db.nextExerciseId) && db.nextExerciseId == r.value + 1
    ensures r.Ok? ==> db.exercises == old(db.exercises) + [NewRow(r.value, e)]
  {
    if HasName(db.exercises, ExerciseName, e.name) {
      return Err(DuplicateName);
    }
    var id := db.nextExerciseId;
    AppendIdsFresh(db.exercises, NewRow(id, e), ExerciseId, id);
    AppendNamesDistinct(db.exercises, NewRow(id, e), ExerciseName);
    db.exercises := db.exercises + [NewRow(id, e)];
    db.nextExerciseId := id + 1;
    r := Ok(id);
  }

  /**
   * After a successful insert, `getAll` lists exactly one record with the new name,
   * and looking the new id up finds the new record.
   */
  lemma InsertThenGetAll(rows: seq<ExerciseRow>, next: int, e: Exercise)
    requires IdsFresh(rows, ExerciseId, next) && NamesDistinct(rows, ExerciseName)
    requires !HasName(rows, ExerciseName, e.name)
    ensures CountName(Records(rows + [NewRow(next, e)]), e.name) == 1
    ensures FindExercise(Records(rows + [NewRow(next, e)]), next)
         == Some(Exercise(next, e.name, e.description, e.kind))
  {
    var rows' := rows + [NewRow(next, e)];
    AppendNamesDistinct(rows, NewRow(next, e), ExerciseName);
    CountNameAtMostOne(rows', e.name);
    assert rows'[|rows|].name == e.name;
    var found := FindExercise(Records(rows'), next);
    assert Records(rows')[|rows|].id == next;
    var i :| 0 <= i < |Records(rows')| && Records(rows')[i] == found.value
             && forall j :: 0 <= j < i ==> Records(rows')[j].id != next;
    assert i == |rows|;
  }

  /** The row with id `id` takes the name, description and type of `e`; other rows stay. */
  function RenameWhere(rows: seq<ExerciseRow>, id: int, e: Exercise): (r: seq<ExerciseRow>)
    ensures |r| == |rows|
  {
    seq(|rows|, i requires 0 <= i < |rows| =>
      if rows[i].id == id then ExerciseRow(rows[i].id, e.name, e.description, e.kind) else rows[i])
  }

  /** `update` violates the unique index when the row exists and another row has the new name. */
  predicate UpdateClashes(rows: seq<ExerciseRow>, e: Exercise)
  {
    (exists i :: 0 <= i < |rows| && rows[i].id == e.id)
    && (exists j :: 0 <= j < |rows| && rows[j].id != e.id && rows[j].name == e.name)
  }

  lemma RenameWhereIdempotent(rows: seq<ExerciseRow>, id: int, e: Exercise)
    ensures RenameWhere(RenameWhere(rows, id, e), id, e) == RenameWhere(rows, id, e)
  {
  }

  /** What `update` changes: exactly the fields of the row with the same id. */
  lemma RenameWhereEffect(rows: seq<ExerciseRow>, e: Exercise)
    ensures forall i :: 0 <= i < |rows| && rows[i].id != e.id ==> RenameWhere(rows, e.id, e)[i] == rows[i]
    ensures forall i :: 0 <= i < |rows| && rows[i].id == e.id ==>
      RenameWhere(rows, e.id, e)[i] == NewRow(e.id, e)
    ensures (forall i :: 0 <= i < |rows| ==> rows[i].id != e.id) ==> RenameWhere(rows, e.id, e) == rows
  {
  }

  /**
   * `update`: for each stored row with the record's id, sets its name, description
   * and type; no row with that id means no change. Renaming onto another row's
   * name violates the unique index and nothing is written. Each pass of the
   * loop is one whole-table `UPDATE ... WHERE id = row.id` for a matched row;
   * every matched row carries the record's id, so the first pass does all the
   * work and the later ones change nothing.
   */
  method Update(db: Store, e: Exercise) returns (r: Result<(), Failure>)
    requires db.Valid()
    modifies db`exercises
    ensures db.Valid()
    ensures r.Err? <==> UpdateClashes(old(db.exercises), e)
    ensures r.Err? ==> r.error == DuplicateName && db.exercises == old(db.exercises)
    ensures r.Ok? ==> db.exercises == RenameWhere(old(db.exercises), e.id, e)
  {
    var matched := Select(db.exercises, ExerciseId, e.id);
    SelectMembers(db.exercises, ExerciseId, e.id);
    if UpdateClashes(db.exercises, e) {
      return Err(DuplicateName);
    }
    ghost var rows := db.exercises;
    if matched == [] {
      assert forall i :: 0 <= i < |rows| ==> rows[i].id != e.id;
      RenameWhereEffect(rows, e);
    }
    RenamePreservesValid(rows, e);
    var i := 0;
    while i < |matched|
      invariant 0 <= i <= |matched|
      invariant db.exercises == if i == 0 then rows else RenameWhere(rows, e.id, e)
      invariant forall k :: 0 <= k < |matched| ==> matched[k].id == e.id
    {
      db.exercises := RenameWhere(db.exercises, matched[i].id, e);
      RenameWhereIdempotent(rows, e.id, e);
      i := i + 1;
    }
    r := Ok(());
  }

  lemma RenamePreservesValid(rows: seq<ExerciseRow>, e: Exercise)
    requires Increasing(rows, ExerciseId) && NamesDistinct(rows, ExerciseName)
    requires !UpdateClashes(rows, e)
    ensures Increasing(RenameWhere(rows, e.id, e), ExerciseId)
    ensures NamesDistinct(RenameWhere(rows, e.id, e), ExerciseName)
    ensures forall i :: 0 <= i < |rows| ==> RenameWhere(rows, e.id, e)[i].id == rows[i].id
  {
    var r := RenameWhere(rows, e.id, e);
    forall a, b | 0 <= a < b < |r| ensures r[a].name != r[b].name {
      if rows[a].id == e.id {
        assert rows[b].id != e.id;
      } else if rows[b].id == e.id {
        assert rows[a].id != e.id;
      }
    }
  }

  /** `delete`: removes the row with that id and nothing else; references to it are not inspected. */
  method Delete(db: Store, id: int)
    requires db.Valid()
    modifies db`exercises
    ensures db.Valid()
    ensures db.exercises == Reject(old(db.exercises), ExerciseId, id)
  {
    DeleteRows(db, id);
  }

  /**
   * The loop of delete, over the exercise table alone: one whole-table
   * `DELETE ... WHERE id = row.id` per matched row, all with the same id.
   */
  method DeleteRows(db: Store, id: int)
    requires db.ExercisesValid()
    modifies db`exercises
    ensures db.ExercisesValid()
    ensures db.exercises == Reject(old(db.exercises), ExerciseId, id)
  {
    var matched := Select(db.exercises, ExerciseId, id);
    SelectMembers(db.exercises, ExerciseId, id);
    ghost var rows := db.exercises;
    DeleteKeepsInvariant(rows, id, db.nextExerciseId);
    var i := 0;
    while i < |matched|
      invariant 0 <= i <= |matched|
      invariant db.exercises == if i == 0 then rows else Reject(rows, ExerciseId, id)
      invariant forall k :: 0 <= k < |matched| ==> matched[k].id == id
    {
      db.exercises := Reject(db.exercises, ExerciseId, matched[i].id);
      i := i + 1;
    }
    if matched == [] {
      RejectNone(rows, ExerciseId, id);
    }
  }

  /** Removing rows keeps ids fresh and names distinct, and a second removal changes nothing. */
  lemma DeleteKeepsInvariant(rows: seq<ExerciseRow>, id: int, next: int)
    requires IdsFresh(rows, ExerciseId, next) && NamesDistinct(rows, ExerciseName)
    ensures IdsFresh(Reject(rows, ExerciseId, id), ExerciseId, next)
    ensures NamesDistinct(Reject(rows, ExerciseId, id), ExerciseName)
    ensures Reject(Reject(rows, ExerciseId, id), ExerciseId, id) == Reject(rows, ExerciseId, id)
  {
    var f := RejectEmbeds(rows, ExerciseId, id);
    EmbedsIdsFresh(Reject(rows, ExerciseId, id), rows, f, ExerciseId, next);
    EmbedsNamesDistinct(Reject(rows, ExerciseId, id), rows, f, ExerciseName);
    RejectMembers(rows, ExerciseId, id);
    RejectNone(Reject(rows, ExerciseId, id), ExerciseId, id);
  }

  /** What `delete` leaves: no row with the id, every other row in its place in order. */
  lemma DeleteEffect(rows: seq<ExerciseRow>, id: int)
    ensures forall i :: 0 <= i < |Reject(rows, ExerciseId, id)| ==> Reject(rows, ExerciseId, id)[i].id != id
    ensures forall i :: 0 <= i < |rows| && rows[i].id != id ==> rows[i] in Reject(rows, ExerciseId, id)
  {
    RejectMembers(rows, ExerciseId, id);
  }

  /**
   * The twenty exercises seeded into an empty table, in seeding order; their ids
   * are placeholders. Descriptions are written in short concatenated pieces.
   */
  function DefaultExercises(): (r: seq<Exercise>)
    ensures |r| == 20
  {
    [
      Exercise(0, "Barbell Squat",
        "Place the " + "barbell on " + "your upper " + "back, squat " +
        "down by " + "bending your " + "knees and " + "hips, then " +
        "return to " + "standing.",
        "barbell"),
      Exercise(0, "Dumbbell Shoulder Press",
        "Hold a " + "dumbbell in " + "each hand at " + "shoulder " +
        "height and " + "press them " + "overhead.",
        "dumbbell"),
      Exercise(0, "Cable Tricep Pushdown",
        "Grip the " + "cable " + "attachment " + "and push down " +
        "until your " + "arms are " + "fully " + "extended. 💪",
        "cable"),
      Exercise(0, "Lég Press Machine",
        "Sit on the " + "machine and " + "push the " + "platform away " +
        "using your " + "legs.",
        "machine"),
      Exercise(0, "Barbell Deadlift",
        "Lift the " + "barbell from " + "the ground to " + "a standing " +
        "position " + "using your " + "legs and back.",
        "barbell"),
      Exercise(0, "Dumbbell Bizeps Cürl",
        "Hold a " + "dumbbell in " + "each hand and " + "curl them " +
        "towards your " + "shoulders.",
        "dumbbell"),
      Exercise(0, "Cable Lateral Raise",
        "Use a cable " + "machine to " + "lift your " + "arms out to " +
        "the sides.",
        "cable"),
      Exercise(0, "Chest Press Machine",
        "Push the " + "handles of " + "the machine " + "forward to " +
        "work your " + "chest. 🏋️‍♂️",
        "machine"),
      Exercise(0, "Barbell Bent-Over Rów",
        "Bend at your " + "waist and " + "pull the " + "barbell " +
        "towards your " + "torso.",
        "barbell"),
      Exercise(0, "Dumbbell Lunges",
        "Hold a " + "dumbbell in " + "each hand and " + "step forward " +
        "into a lunge.",
        "dumbbell"),
      Exercise(0, "Cable Face Pulls",
        "Pull the " + "cable " + "attachment " + "towards your " +
        "face to " + "engage rear " + "delts. 🤜",
        "cable"),
      Exercise(0, "Lat Pulldown Machine",
        "Pull the bar " + "down towards " + "your chest to " + "work your " +
        "back.",
        "machine"),
      Exercise(0, "Barbell Overhead Press",
        "Press a " + "barbell " + "overhead " + "while " +
        "standing.",
        "barbell"),
      Exercise(0, "Dumbbell Deadlift",
        "Lift " + "dumbbells " + "from the " + "floor to a " +
        "standing " + "position.",
        "dumbbell"),
      Exercise(0, "Cable Séated Row",
        "Pull the " + "cable " + "attachment " + "towards your " +
        "torso while " + "seated.",
        "cable"),
      Exercise(0, "Lëg Curl Machine",
        "Curl the " + "weight by " + "flexing your " + "knees.",
        "machine"),
      Exercise(0, "Barbell Hip Thrust",
        "Place your " + "shoulders on " + "a bench and " + "thrust your " +
        "hips up with " + "a barbell.",
        "barbell"),
      Exercise(0, "Dumbbell Step-Ups",
        "Step onto a " + "bench while " + "holding " + "dumbbells.",
        "dumbbell"),
      Exercise(0, "Cable Chest Fly",
        "Pull the " + "cable handles " + "together in " + "front of your " +
        "chest.",
        "cable"),
      Exercise(0, "Hack Squat Machine",
        "Squat using a " + "machine-guided " + "movement.",
        "machine")
    ]
  }

  /** The types every seeded exercise belongs to. */
  predicate IsEquipment(kind: string)
  {
    kind == "barbell" || kind == "dumbbell" || kind == "cable" || kind == "machine"
  }

  /** The seeded names are pairwise distinct, so seeding never hits the unique index. */
  lemma DefaultNamesDistinct()
    ensures forall i, j :: 0 <= i < j < |DefaultExercises()| ==>
      DefaultExercises()[i].name != DefaultExercises()[j].name
  {
  }

  /** Every seeded exercise is of one of the four equipment types. */
  lemma DefaultKinds()
    ensures forall i :: 0 <= i < |DefaultExercises()| ==> IsEquipment(DefaultExercises()[i].kind)
  {
  }

  /** The rows that inserting `catalog` in order stores when the counter stands at `first`. */
  function SeedRows(first: int, catalog: seq<Exercise>): (r: seq<ExerciseRow>)
    ensures |r| == |catalog|
    ensures forall i :: 0 <= i < |r| ==> r[i].id == first + i && r[i].name == catalog[i].name
  {
    seq(|catalog|, i requires 0 <= i < |catalog| => NewRow(first + i, catalog[i]))
  }

  /** Inserts every exercise of `catalog`, in order; distinct new names never hit the unique index. */
  method InsertEach(db: Store, catalog: seq<Exercise>)
    requires db.Valid() && db.exercises == []
    requires forall i, j :: 0 <= i < j < |catalog| ==> catalog[i].name != catalog[j].name
    modifies db`exercises, db`nextExerciseId
    ensures db.Valid()
    ensures db.exercises == SeedRows(old(db.nextExerciseId), catalog)
    ensures db.nextExerciseId == old(db.nextExerciseId) + |catalog|
  {
    ghost var first := db.nextExerciseId;
    var i := 0;
    while i < |catalog|
      invariant 0 <= i <= |catalog|
      invariant db.Valid()
      invariant db.nextExerciseId == first + i
      invariant db.exercises == SeedRows(first, catalog)[..i]
    {
      var r := Insert(db, catalog[i]);
      assert SeedRows(first, catalog)[..i + 1] == SeedRows(first, catalog)[..i] + [NewRow(first + i, catalog[i])];
      i := i + 1;
    }
    assert SeedRows(first, catalog)[..|catalog|] == SeedRows(first, catalog);
  }

  /**
   * `insertDefaultExercises`: an empty table receives the twenty catalog exercises
   * under consecutive fresh ids; a table holding any row is left alone.
   */
  method InsertDefaultExercises(db: Store)
    requires db.Valid()
    modifies db`exercises, db`nextExerciseId
    ensures db.Valid() && db.exercises != []
    ensures old(db.exercises) != [] ==>
      db.exercises == old(db.exercises) && db.nextExerciseId == old(db.nextExerciseId)
    ensures old(db.exercises) == [] ==>
      db.exercises == SeedRows(old(db.nextExerciseId), DefaultExercises())
      && db.nextExerciseId == old(db.nextExerciseId) + 20
  {
    if GetAll(db) == [] {
      DefaultNamesDistinct();
      InsertEach(db, DefaultExercises());
    }
  }

  /** Seeding twice stores the same rows as seeding once. */
  method SeedTwice(db: Store)
    requires db.Valid()
    modifies db`exercises, db`nextExerciseId
    ensures db.Valid()
    ensures db.exercises ==
      if old(db.exercises) == [] then SeedRows(old(db.nextExerciseId), DefaultExercises()) else old(db.exercises)
  {
    InsertDefaultExercises(db);
    InsertDefaultExercises(db);
  }
}
