/**
 * The workout repository: a workout row (name, start, end) owns link rows (one
 * per exercise of the workout, with its position) and each link owns set rows
 * (set number, weight and reps). Reads assemble the records; writes refuse a
 * workout whose time span overlaps a stored one and replace the children wholesale.
 */
module WorkoutRepository {

  import opened Wrappers
  import opened Seqs
  import opened Model
  import opened Tables
  import ExerciseRepository

  // ---------------------------------------------------------------------------
  // Rows written by insert and update
  // ---------------------------------------------------------------------------

  /** The link rows stored for `exercises` under workout `workoutId`, ids from `base`. */
  function LinkRows(workoutId: int, exercises: seq<WorkoutExercise>, base: int): (r: seq<WorkoutExerciseRow>)
    ensures |r| == |exercises|
    ensures forall i :: 0 <= i < |r| ==>
      r[i] == WorkoutExerciseRow(base + i, workoutId, exercises[i].exercise.id, exercises[i].order)
  {
    seq(|exercises|, i requires 0 <= i < |exercises| =>
      WorkoutExerciseRow(base + i, workoutId, exercises[i].exercise.id, exercises[i].order))
  }

  /** The set rows stored for `sets` under link `linkId`, ids from `base`. */
  function SetRowsOf(sets: seq<WorkoutSet>, linkId: int, base: int): (r: seq<WorkoutSetRow>)
    ensures |r| == |sets|
    ensures forall k :: 0 <= k < |r| ==>
      r[k] == WorkoutSetRow(base + k, linkId, sets[k].setNumber, sets[k].weight, sets[k].reps)
  {
    seq(|sets|, k requires 0 <= k < |sets| => WorkoutSetRow(base + k, linkId, sets[k].setNumber, sets[k].weight, sets[k].reps))
  }

  /** How many sets the exercises hold together. */
  function SetCount(exercises: seq<WorkoutExercise>): nat
  {
    if exercises == [] then 0
    else SetCount(exercises[..|exercises| - 1]) + |exercises[|exercises| - 1].sets|
  }

  /**
   * The set rows stored for all `exercises`: exercise i's sets hang off link
   * `linkBase + i`, and set ids run on from `setBase` across the exercises.
   */
  function SetRows(exercises: seq<WorkoutExercise>, linkBase: int, setBase: int): (r: seq<WorkoutSetRow>)
    ensures |r| == SetCount(exercises)
  {
    if exercises == [] then []
    else
      var init := exercises[..|exercises| - 1];
      SetRows(init, linkBase, setBase)
        + SetRowsOf(exercises[|exercises| - 1].sets, linkBase + |init|, setBase + SetCount(init))
  }

  /** Every set row of `SetRows` hangs off one of the new links. */
  lemma {:induction false} SetRowsOwners(exercises: seq<WorkoutExercise>, linkBase: int, setBase: int)
    ensures forall k :: 0 <= k < |SetRows(exercises, linkBase, setBase)| ==>
      linkBase <= SetRows(exercises, linkBase, setBase)[k].workoutExerciseId < linkBase + |exercises|
  {
    if exercises != [] {
      SetRowsOwners(exercises[..|exercises| - 1], linkBase, setBase);
    }
  }

  /** The set rows built for the i-th exercise: link `linkBase + i`, ids after those of exercises before it. */
  function BuiltSets(exercises: seq<WorkoutExercise>, i: int, linkBase: int, setBase: int): seq<WorkoutSetRow>
    requires 0 <= i < |exercises|
  {
    SetRowsOf(exercises[i].sets, linkBase + i, setBase + SetCount(exercises[..i]))
  }

  /** The sets owned by the i-th new link are exactly the sets of the i-th exercise, in input order. */
  lemma {:induction false} SetRowsOwnedBy(exercises: seq<WorkoutExercise>, linkBase: int, setBase: int, i: int)
    requires 0 <= i < |exercises|
    ensures Select(SetRows(exercises, linkBase, setBase), WorkoutSetOwner, linkBase + i)
         == BuiltSets(exercises, i, linkBase, setBase)
  {
    var n := |exercises| - 1;
    var init := exercises[..n];
    var front := SetRows(init, linkBase, setBase);
    var last := SetRowsOf(exercises[n].sets, linkBase + n, setBase + SetCount(init));
    assert SetRows(exercises, linkBase, setBase) == front + last;
    if i == n {
      SetRowsOwners(init, linkBase, setBase);
      SelectOnlyRight(front, last, WorkoutSetOwner, linkBase + i);
    } else {
      SelectNotRight(front, last, WorkoutSetOwner, linkBase + i);
      SetRowsOwnedBy(init, linkBase, setBase, i);
      assert init[..i] == exercises[..i] && init[i] == exercises[i];
    }
  }

  // ---------------------------------------------------------------------------
  // Read side: getWorkoutSets, getWorkoutExercises, getAll
  // ---------------------------------------------------------------------------

  function SetRecord(row: WorkoutSetRow): WorkoutSet
  {
    WorkoutSet(row.id, row.workoutExerciseId, row.setNumber, row.weight, row.reps)
  }

  function SetRecords(rows: seq<WorkoutSetRow>): (r: seq<WorkoutSet>)
    ensures |r| == |rows| && forall k :: 0 <= k < |rows| ==> r[k] == SetRecord(rows[k])
  {
    seq(|rows|, k requires 0 <= k < |rows| => SetRecord(rows[k]))
  }

  /** `getWorkoutSets`: the sets of one link, ordered by set number. */
  function GetWorkoutSets(sets: seq<WorkoutSetRow>, linkId: int): seq<WorkoutSet>
  {
    SetRecords(SortBy(Select(sets, WorkoutSetOwner, linkId), WorkoutSetNumber))
  }

  /**
   * The sets `getWorkoutSets` returns: a reordering of the link's own set rows,
   * ascending by set number, sets sharing a number kept in storage order.
   */
  lemma GetWorkoutSetsSpec(sets: seq<WorkoutSetRow>, linkId: int)
    ensures var owned := Select(sets, WorkoutSetOwner, linkId);
      var sorted := SortBy(owned, WorkoutSetNumber);
      && GetWorkoutSets(sets, linkId) == SetRecords(sorted)
      && multiset(sorted) == multiset(owned)
      && (forall k :: 0 <= k < |sorted| ==> sorted[k] in sets && sorted[k].workoutExerciseId == linkId)
      && (forall a, b :: 0 <= a < b < |sorted| ==> sorted[a].setNumber <= sorted[b].setNumber)
      && (forall n :: Select(sorted, WorkoutSetNumber, n) == Select(owned, WorkoutSetNumber, n))
  {
    var owned := Select(sets, WorkoutSetOwner, linkId);
    SortByPermutes(owned, WorkoutSetNumber);
    SortByOrdered(owned, WorkoutSetNumber);
    SortedSelectMembers(sets, WorkoutSetOwner, linkId, WorkoutSetNumber);
    forall n ensures Select(SortBy(owned, WorkoutSetNumber), WorkoutSetNumber, n) == Select(owned, WorkoutSetNumber, n) {
      SortByStable(owned, WorkoutSetNumber, n);
    }
  }

  /** Whether `find` locates the exercise a link names. */
  predicate Resolves(exercises: seq<Exercise>, link: WorkoutExerciseRow)
  {
    FindExercise(exercises, link.exerciseId).Some?
  }

  /** The record of one link, given that its exercise resolves. */
  function LinkRecord(link: WorkoutExerciseRow, sets: seq<WorkoutSetRow>, exercises: seq<Exercise>): WorkoutExercise
    requires Resolves(exercises, link)
  {
    WorkoutExercise(link.id, link.workoutId, FindExercise(exercises, link.exerciseId).value,
      link.order, GetWorkoutSets(sets, link.id))
  }

  /** The `map` over link rows: each becomes a record, and a missing exercise fails the whole read. */
  function AssembleLinks(links: seq<WorkoutExerciseRow>, sets: seq<WorkoutSetRow>, exercises: seq<Exercise>)
    : (r: Result<seq<WorkoutExercise>, Failure>)
    ensures r.Err? ==> r.error == ExerciseNotFound
    ensures r.Ok? <==> forall i :: 0 <= i < |links| ==> Resolves(exercises, links[i])
    ensures r.Ok? ==> |r.value| == |links|
    ensures r.Ok? ==> forall i :: 0 <= i < |links| ==> r.value[i] == LinkRecord(links[i], sets, exercises)
  {
    if links == [] then Ok([])
    else if !Resolves(exercises, links[0]) then Err(ExerciseNotFound)
    else
      var rest := AssembleLinks(links[1..], sets, exercises);
      if rest.Err? then rest
      else
        assert forall i :: 1 <= i < |links| ==> links[1..][i - 1] == links[i];
        Ok([LinkRecord(links[0], sets, exercises)] + rest.value)
  }

  /** `getWorkoutExercises`: the links of one workout, ordered by position, as records. */
  function GetWorkoutExercises(links: seq<WorkoutExerciseRow>, sets: seq<WorkoutSetRow>,
                                exercises: seq<Exercise>, workoutId: int): Result<seq<WorkoutExercise>, Failure>
  {
    AssembleLinks(SortBy(Select(links, WorkoutLinkOwner, workoutId), WorkoutLinkOrder), sets, exercises)
  }

  /** Every link row of workout `workoutId` names a stored exercise. */
  predicate LinksResolve(links: seq<WorkoutExerciseRow>, exercises: seq<Exercise>, workoutId: int)
  {
    forall i :: 0 <= i < |links| && links[i].workoutId == workoutId ==> Resolves(exercises, links[i])
  }

  /**
   * `getWorkoutExercises` fails, with "Exercise not found", exactly when a link
   * of the workout names a missing exercise.
   */
  lemma GetWorkoutExercisesFails(links: seq<WorkoutExerciseRow>, sets: seq<WorkoutSetRow>,
                                  exercises: seq<Exercise>, workoutId: int)
    ensures GetWorkoutExercises(links, sets, exercises, workoutId).Ok? <==> LinksResolve(links, exercises, workoutId)
    ensures GetWorkoutExercises(links, sets, exercises, workoutId).Err? ==>
      GetWorkoutExercises(links, sets, exercises, workoutId).error == ExerciseNotFound
  {
    var sorted := SortBy(Select(links, WorkoutLinkOwner, workoutId), WorkoutLinkOrder);
    SortedSelectMembers(links, WorkoutLinkOwner, workoutId, WorkoutLinkOrder);
    if LinksResolve(links, exercises, workoutId) {
      forall k | 0 <= k < |sorted| ensures Resolves(exercises, sorted[k]) {
        var j :| 0 <= j < |links| && links[j] == sorted[k];
      }
    } else {
      var i :| 0 <= i < |links| && links[i].workoutId == workoutId && !Resolves(exercises, links[i]);
      var k :| 0 <= k < |sorted| && sorted[k] == links[i];
    }
  }

  /**
   * When `getWorkoutExercises` succeeds it returns one record per link of the
   * workout: the links read are exactly the workout's own link rows, each once, sorted
   * ascending by position (links sharing a position kept in storage order), and
   * each record carries its link's id, position, resolved exercise and sets.
   */
  lemma GetWorkoutExercisesSpec(links: seq<WorkoutExerciseRow>, sets: seq<WorkoutSetRow>,
                                 exercises: seq<Exercise>, workoutId: int)
    ensures var owned := Select(links, WorkoutLinkOwner, workoutId);
      var sorted := SortBy(owned, WorkoutLinkOrder);
      var r := GetWorkoutExercises(links, sets, exercises, workoutId);
      && multiset(sorted) == multiset(owned)
      && (forall k :: 0 <= k < |sorted| ==> sorted[k] in links && sorted[k].workoutId == workoutId)
      && (forall a, b :: 0 <= a < b < |sorted| ==> sorted[a].order <= sorted[b].order)
      && (forall n :: Select(sorted, WorkoutLinkOrder, n) == Select(owned, WorkoutLinkOrder, n))
      && (r.Ok? ==>
            && |r.value| == |sorted|
            && forall i :: 0 <= i < |r.value| ==>
                 && Resolves(exercises, sorted[i])
                 && r.value[i] == LinkRecord(sorted[i], sets, exercises)
                 && r.value[i].id == sorted[i].id && r.value[i].workoutId == workoutId
                 && r.value[i].order == sorted[i].order
                 && r.value[i].exercise == FindExercise(exercises, sorted[i].exerciseId).value
                 && r.value[i].sets == GetWorkoutSets(sets, sorted[i].id))
  {
    var owned := Select(links, WorkoutLinkOwner, workoutId);
    SortedSelectMembers(links, WorkoutLinkOwner, workoutId, WorkoutLinkOrder);
    SortByOrdered(owned, WorkoutLinkOrder);
    SortByPermutes(owned, WorkoutLinkOrder);
    forall n ensures Select(SortBy(owned, WorkoutLinkOrder), WorkoutLinkOrder, n) == Select(owned, WorkoutLinkOrder, n) {
      SortByStable(owned, WorkoutLinkOrder, n);
    }
  }

  /** The `map` over workout rows: a workout record per row, in storage order. */
  function AssembleWorkouts(workouts: seq<WorkoutRow>, links: seq<WorkoutExerciseRow>,
                            sets: seq<WorkoutSetRow>, exercises: seq<Exercise>)
    : (r: Result<seq<Workout>, Failure>)
    ensures r.Err? ==> r.error == ExerciseNotFound
    ensures r.Ok? <==> forall i :: 0 <= i < |workouts| ==>
      GetWorkoutExercises(links, sets, exercises, workouts[i].id).Ok?
    ensures r.Ok? ==> |r.value| == |workouts|
    ensures r.Ok? ==> forall i :: 0 <= i < |workouts| ==>
      r.value[i] == Workout(workouts[i].id, workouts[i].name, workouts[i].start, workouts[i].end,
                            GetWorkoutExercises(links, sets, exercises, workouts[i].id).value)
  {
    if workouts == [] then Ok([])
    else
      var head := GetWorkoutExercises(links, sets, exercises, workouts[0].id);
      if head.Err? then Err(head.error)
      else
        var rest := AssembleWorkouts(workouts[1..], links, sets, exercises);
        if rest.Err? then rest
        else
          assert forall i :: 1 <= i < |workouts| ==> workouts[1..][i - 1] == workouts[i];
          Ok([Workout(workouts[0].id, workouts[0].name, workouts[0].start, workouts[0].end, head.value)] + rest.value)
  }

  /** `getAll`: every stored workout with its exercises and sets. */
  function GetAll(db: Store): Result<seq<Workout>, Failure>
    reads db
  {
    AssembleWorkouts(db.workouts, db.workoutExercises, db.workoutSets, ExerciseRepository.GetAll(db))
  }

  /**
   * `getAll` fails with "Exercise not found" exactly when some stored workout
   * has a link naming a missing exercise; otherwise it lists every workout row
   * with its name and time span.
   */
  lemma GetAllSpec(db: Store)
    ensures GetAll(db).Ok? <==> forall i :: 0 <= i < |db.workouts| ==>
      LinksResolve(db.workoutExercises, ExerciseRepository.GetAll(db), db.workouts[i].id)
    ensures GetAll(db).Err? ==> GetAll(db).error == ExerciseNotFound
    ensures GetAll(db).Ok? ==> |GetAll(db).value| == |db.workouts| && forall i :: 0 <= i < |db.workouts| ==>
      && GetAll(db).value[i].id == db.workouts[i].id && GetAll(db).value[i].name == db.workouts[i].name
      && GetAll(db).value[i].start == db.workouts[i].start && GetAll(db).value[i].end == db.workouts[i].end
  {
    forall i | 0 <= i < |db.workouts| {
      GetWorkoutExercisesFails(db.workoutExercises, db.workoutSets, ExerciseRepository.GetAll(db), db.workouts[i].id);
    }
  }

  // ---------------------------------------------------------------------------
  // Write side: insert, update, delete
  // ---------------------------------------------------------------------------

  lemma SetRowsOfSnoc(rows: seq<WorkoutSetRow>, sets: seq<WorkoutSet>, k: int, linkId: int, base: int)
    requires 0 <= k < |sets|
    ensures rows + SetRowsOf(sets[..k + 1], linkId, base)
         == (rows + SetRowsOf(sets[..k], linkId, base)) + [WorkoutSetRow(base + k, linkId, sets[k].setNumber, sets[k].weight, sets[k].reps)]
  {
    assert SetRowsOf(sets[..k + 1], linkId, base)
        == SetRowsOf(sets[..k], linkId, base) + [WorkoutSetRow(base + k, linkId, sets[k].setNumber, sets[k].weight, sets[k].reps)];
  }

  /** Inserts one set row per entry of `sets` under link `linkId`. */
  method InsertSets(db: Store, linkId: int, sets: seq<WorkoutSet>)
    requires db.WorkoutSetsValid() && linkId < db.nextWorkoutExerciseId
    modifies db`workoutSets, db`nextWorkoutSetId
    ensures db.WorkoutSetsValid()
    ensures db.workoutSets == old(db.workoutSets) + SetRowsOf(sets, linkId, old(db.nextWorkoutSetId))
    ensures db.nextWorkoutSetId == old(db.nextWorkoutSetId) + |sets|
  {
    ghost var rows := db.workoutSets;
    ghost var base := db.nextWorkoutSetId;
    var k := 0;
    while k < |sets|
      invariant 0 <= k <= |sets|
      invariant db.WorkoutSetsValid()
      invariant db.nextWorkoutSetId == base + k
      invariant db.workoutSets == rows + SetRowsOf(sets[..k], linkId, base)
    {
      var row := WorkoutSetRow(db.nextWorkoutSetId, linkId, sets[k].setNumber, sets[k].weight, sets[k].reps);
      AppendIdsFresh(db.workoutSets, row, WorkoutSetId, db.nextWorkoutSetId);
      SetRowsOfSnoc(rows, sets, k, linkId, base);
      db.workoutSets := db.workoutSets + [row];
      db.nextWorkoutSetId := db.nextWorkoutSetId + 1;
      k := k + 1;
    }
    assert sets[..k] == sets;
  }

  lemma LinksStep(links: seq<WorkoutExerciseRow>, workoutId: int, exercises: seq<WorkoutExercise>,
                  i: int, linkBase: int)
    requires 0 <= i < |exercises|
    ensures links + LinkRows(workoutId, exercises[..i + 1], linkBase)
         == (links + LinkRows(workoutId, exercises[..i], linkBase))
            + [WorkoutExerciseRow(linkBase + i, workoutId, exercises[i].exercise.id, exercises[i].order)]
  {
    assert LinkRows(workoutId, exercises[..i + 1], linkBase) == LinkRows(workoutId, exercises[..i], linkBase)
      + [WorkoutExerciseRow(linkBase + i, workoutId, exercises[i].exercise.id, exercises[i].order)];
  }

  lemma SetsStep(sets: seq<WorkoutSetRow>, before: seq<WorkoutSetRow>, added: seq<WorkoutSetRow>,
                 exercises: seq<WorkoutExercise>, i: int, linkBase: int, setBase: int)
    requires 0 <= i < |exercises|
    requires before == sets + SetRows(exercises[..i], linkBase, setBase)
    requires added == SetRowsOf(exercises[i].sets, linkBase + i, setBase + SetCount(exercises[..i]))
    ensures SetCount(exercises[..i + 1]) == SetCount(exercises[..i]) + |exercises[i].sets|
    ensures before + added == sets + SetRows(exercises[..i + 1], linkBase, setBase)
  {
    var front, grown := exercises[..i], exercises[..i + 1];
    assert grown[..|grown| - 1] == front && grown[|grown| - 1] == exercises[i];
    assert SetRows(grown, linkBase, setBase) == SetRows(front, linkBase, setBase) + added;
    assert (sets + SetRows(front, linkBase, setBase)) + added == sets + (SetRows(front, linkBase, setBase) + added);
  }

  /** Inserts the link row of one exercise under workout `workoutId`, then its sets. */
  method InsertLink(db: Store, workoutId: int, te: WorkoutExercise) returns (linkId: int)
    requires db.WorkoutLinksValid() && db.WorkoutSetsValid() && workoutId < db.nextWorkoutId
    modifies db`workoutExercises, db`nextWorkoutExerciseId, db`workoutSets, db`nextWorkoutSetId
    ensures db.WorkoutLinksValid() && db.WorkoutSetsValid()
    ensures linkId == old(db.nextWorkoutExerciseId) && db.nextWorkoutExerciseId == linkId + 1
    ensures db.workoutExercises ==
      old(db.workoutExercises) + [WorkoutExerciseRow(linkId, workoutId, te.exercise.id, te.order)]
    ensures db.workoutSets == old(db.workoutSets) + SetRowsOf(te.sets, linkId, old(db.nextWorkoutSetId))
    ensures db.nextWorkoutSetId == old(db.nextWorkoutSetId) + |te.sets|
  {
    linkId := db.nextWorkoutExerciseId;
    var link := WorkoutExerciseRow(linkId, workoutId, te.exercise.id, te.order);
    AppendIdsFresh(db.workoutExercises, link, WorkoutLinkId, linkId);
    db.workoutExercises := db.workoutExercises + [link];
    db.nextWorkoutExerciseId := linkId + 1;
    InsertSets(db, linkId, te.sets);
  }

  /** Inserts the link rows of `exercises` under workout `workoutId`, each followed by its sets. */
  method InsertChildren(db: Store, workoutId: int, exercises: seq<WorkoutExercise>)
    requires db.Valid() && workoutId < db.nextWorkoutId
    modifies db`workoutExercises, db`nextWorkoutExerciseId, db`workoutSets, db`nextWorkoutSetId
    ensures db.Valid()
    ensures db.workoutExercises ==
      old(db.workoutExercises) + LinkRows(workoutId, exercises, old(db.nextWorkoutExerciseId))
    ensures db.workoutSets ==
      old(db.workoutSets) + SetRows(exercises, old(db.nextWorkoutExerciseId), old(db.nextWorkoutSetId))
    ensures db.nextWorkoutExerciseId == old(db.nextWorkoutExerciseId) + |exercises|
    ensures db.nextWorkoutSetId == old(db.nextWorkoutSetId) + SetCount(exercises)
  {
    ghost var links := db.workoutExercises;
    ghost var sets := db.workoutSets;
    ghost var linkBase := db.nextWorkoutExerciseId;
    ghost var setBase := db.nextWorkoutSetId;
    var i := 0;
    while i < |exercises|
      invariant 0 <= i <= |exercises|
      invariant db.WorkoutLinksValid() && db.WorkoutSetsValid()
      invariant db.nextWorkoutExerciseId == linkBase + i
      invariant db.nextWorkoutSetId == setBase + SetCount(exercises[..i])
      invariant db.workoutExercises == links + LinkRows(workoutId, exercises[..i], linkBase)
      invariant db.workoutSets == sets + SetRows(exercises[..i], linkBase, setBase)
    {
      LinksStep(links, workoutId, exercises, i, linkBase);
      SetsStep(sets, db.workoutSets, SetRowsOf(exercises[i].sets, linkBase + i, db.nextWorkoutSetId),
        exercises, i, linkBase, setBase);
      var _ := InsertLink(db, workoutId, exercises[i]);
      i := i + 1;
    }
    assert exercises[..i] == exercises;
  }

  /** The `any` of insert: some stored workout overlaps the span from `start` to `end`. */
  predicate OverlapsAny(rows: seq<WorkoutRow>, start: int, end: int)
  {
    exists i :: 0 <= i < |rows| && Overlaps(rows[i], start, end)
  }

  /** The `any` of update: some stored workout other than `id` overlaps the span. */
  predicate OverlapsOther(rows: seq<WorkoutRow>, id: int, start: int, end: int)
  {
    exists i :: 0 <= i < |rows| && rows[i].id != id && Overlaps(rows[i], start, end)
  }

  /** A row that overlaps no stored row keeps the stored rows pairwise apart. */
  lemma AppendNoOverlaps(rows: seq<WorkoutRow>, row: WorkoutRow)
    requires NoOverlaps(rows) && !OverlapsAny(rows, row.start, row.end)
    ensures NoOverlaps(rows + [row])
  {
    var r := rows + [row];
    forall i, j | 0 <= i < |r| && 0 <= j < |r| && i != j ensures !Overlaps(r[i], r[j].start, r[j].end) {
      if i == |rows| {
        assert !Overlaps(rows[j], row.start, row.end);
      } else if j == |rows| {
        assert !Overlaps(rows[i], row.start, row.end);
      }
    }
  }

  /**
   * `insert`: refuses a workout whose span overlaps a stored one; otherwise
   * stores the workout row under a fresh id, then a link row per exercise and a
   * set row per set, and returns the id. A stored name violates the unique index
   * and nothing is written.
   */
  method Insert(db: Store, w: Workout) returns (r: Result<int, Failure>)
    requires db.Valid()
    modifies db`workouts, db`nextWorkoutId, db`workoutExercises, db`nextWorkoutExerciseId,
      db`workoutSets, db`nextWorkoutSetId
    ensures db.Valid()
    ensures r == Err(OverlappingWorkout) <==> OverlapsAny(old(db.workouts), w.start, w.end)
    ensures r == Err(DuplicateName) <==>
      !OverlapsAny(old(db.workouts), w.start, w.end) && HasName(old(db.workouts), WorkoutName, w.name)
    ensures r.Err? ==> r.error == OverlappingWorkout || r.error == DuplicateName
    ensures r.Err? ==>
      && db.workouts == old(db.workouts) && db.workoutExercises == old(db.workoutExercises)
      && db.workoutSets == old(db.workoutSets) && db.nextWorkoutId == old(db.nextWorkoutId)
      && db.nextWorkoutExerciseId == old(db.nextWorkoutExerciseId) && db.nextWorkoutSetId == old(db.nextWorkoutSetId)
    ensures r.Ok? ==>
      && r.value == old(db.nextWorkoutId) && db.nextWorkoutId == r.value + 1
      && db.workouts == old(db.workouts) + [WorkoutRow(r.value, w.name, w.start, w.end)]
      && db.workoutExercises == old(db.workoutExercises)
           + LinkRows(r.value, w.exercises, old(db.nextWorkoutExerciseId))
      && db.workoutSets == old(db.workoutSets)
           + SetRows(w.exercises, old(db.nextWorkoutExerciseId), old(db.nextWorkoutSetId))
      && db.nextWorkoutExerciseId == old(db.nextWorkoutExerciseId) + |w.exercises|
      && db.nextWorkoutSetId == old(db.nextWorkoutSetId) + SetCount(w.exercises)
  {
    if OverlapsAny(db.workouts, w.start, w.end) {
      return Err(OverlappingWorkout);
    }
    if HasName(db.workouts, WorkoutName, w.name) {
      return Err(DuplicateName);
    }
    var id := db.nextWorkoutId;
    var row := WorkoutRow(id, w.name, w.start, w.end);
    AppendIdsFresh(db.workouts, row, WorkoutId, id);
    AppendNamesDistinct(db.workouts, row, WorkoutName);
    AppendNoOverlaps(db.workouts, row);
    db.workouts := db.workouts + [row];
    db.nextWorkoutId := id + 1;
    InsertChildren(db, id, w.exercises);
    r := Ok(id);
  }

  /** The workout row with id `id` takes the name and span given; other rows stay. */
  function RewriteWhere(rows: seq<WorkoutRow>, id: int, name: string, start: int, end: int): (r: seq<WorkoutRow>)
    ensures |r| == |rows|
    ensures forall i :: 0 <= i < |rows| ==> r[i].id == rows[i].id
    ensures forall i :: 0 <= i < |rows| ==>
      r[i] == if rows[i].id == id then WorkoutRow(id, name, start, end) else rows[i]
  {
    seq(|rows|, i requires 0 <= i < |rows| => if rows[i].id == id then WorkoutRow(id, name, start, end) else rows[i])
  }

  /** Renaming violates the unique index when the row exists and another row has the new name. */
  predicate UpdateClashes(rows: seq<WorkoutRow>, id: int, name: string)
  {
    (exists i :: 0 <= i < |rows| && rows[i].id == id)
    && (exists j :: 0 <= j < |rows| && rows[j].id != id && rows[j].name == name)
  }

  /** Rewriting a row keeps ids issued, names distinct and spans apart when neither check fires. */
  lemma RewriteKeepsInvariant(rows: seq<WorkoutRow>, id: int, name: string, start: int, end: int, next: int)
    requires IdsFresh(rows, WorkoutId, next) && NamesDistinct(rows, WorkoutName) && NoOverlaps(rows)
    requires !OverlapsOther(rows, id, start, end) && !UpdateClashes(rows, id, name)
    ensures IdsFresh(RewriteWhere(rows, id, name, start, end), WorkoutId, next)
    ensures NamesDistinct(RewriteWhere(rows, id, name, start, end), WorkoutName)
    ensures NoOverlaps(RewriteWhere(rows, id, name, start, end))
  {
    var r := RewriteWhere(rows, id, name, start, end);
    forall a, b | 0 <= a < b < |r| ensures r[a].name != r[b].name {
      if rows[a].id == id {
        assert rows[b].id != id;
      } else if rows[b].id == id {
        assert rows[a].id != id;
      }
    }
    forall a, b | 0 <= a < |r| && 0 <= b < |r| && a != b ensures !Overlaps(r[a], r[b].start, r[b].end) {
      if rows[a].id == id {
        assert rows[b].id != id && !Overlaps(rows[b], start, end);
      } else if rows[b].id == id {
        assert !Overlaps(rows[a], start, end);
      }
    }
  }

  /** The ids of the link rows owned by workout `workoutId`: the `weIds` of update and delete. */
  function OwnedLinkIds(links: seq<WorkoutExerciseRow>, workoutId: int): set<int>
  {
    IdsWith(links, WorkoutLinkOwner, workoutId, WorkoutLinkId)
  }

  /** Deletes the sets of the workout's links, then the links themselves. */
  method DeleteChildren(db: Store, workoutId: int)
    requires db.Valid()
    modifies db`workoutExercises, db`workoutSets
    ensures db.Valid()
    ensures db.workoutSets ==
      RejectIn(old(db.workoutSets), WorkoutSetOwner, OwnedLinkIds(old(db.workoutExercises), workoutId))
    ensures db.workoutExercises == Reject(old(db.workoutExercises), WorkoutLinkOwner, workoutId)
  {
    var ids := OwnedLinkIds(db.workoutExercises, workoutId);
    var f := RejectInEmbeds(db.workoutSets, WorkoutSetOwner, ids);
    EmbedsIdsFresh(RejectIn(db.workoutSets, WorkoutSetOwner, ids), db.workoutSets, f,
      WorkoutSetId, db.nextWorkoutSetId);
    EmbedsOwnersBelow(RejectIn(db.workoutSets, WorkoutSetOwner, ids), db.workoutSets, f,
      WorkoutSetOwner, db.nextWorkoutExerciseId);
    db.workoutSets := RejectIn(db.workoutSets, WorkoutSetOwner, ids);
    var g := RejectEmbeds(db.workoutExercises, WorkoutLinkOwner, workoutId);
    EmbedsIdsFresh(Reject(db.workoutExercises, WorkoutLinkOwner, workoutId), db.workoutExercises, g,
      WorkoutLinkId, db.nextWorkoutExerciseId);
    EmbedsOwnersBelow(Reject(db.workoutExercises, WorkoutLinkOwner, workoutId), db.workoutExercises, g,
      WorkoutLinkOwner, db.nextWorkoutId);
    db.workoutExercises := Reject(db.workoutExercises, WorkoutLinkOwner, workoutId);
  }

  /** The row update of `update`, once neither check fires. */
  method RewriteRow(db: Store, w: Workout)
    requires db.WorkoutsValid()
    requires !OverlapsOther(db.workouts, w.id, w.start, w.end) && !UpdateClashes(db.workouts, w.id, w.name)
    modifies db`workouts
    ensures db.WorkoutsValid()
    ensures db.workouts == RewriteWhere(old(db.workouts), w.id, w.name, w.start, w.end)
  {
    RewriteKeepsInvariant(db.workouts, w.id, w.name, w.start, w.end, db.nextWorkoutId);
    db.workouts := RewriteWhere(db.workouts, w.id, w.name, w.start, w.end);
  }

  /**
   * `update`: refuses a span that overlaps another stored workout; otherwise
   * rewrites the workout row, deletes the sets of its links and the links, then
   * inserts the new links and sets. A rename onto another workout's name
   * violates the unique index and nothing is written.
   */
  method Update(db: Store, w: Workout) returns (r: Result<(), Failure>)
    requires db.Valid() && w.id < db.nextWorkoutId
    modifies db`workouts, db`workoutExercises, db`nextWorkoutExerciseId, db`workoutSets, db`nextWorkoutSetId
    ensures db.Valid()
    ensures r == Err(OverlappingWorkout) <==> OverlapsOther(old(db.workouts), w.id, w.start, w.end)
    ensures r == Err(DuplicateName) <==>
      !OverlapsOther(old(db.workouts), w.id, w.start, w.end) && UpdateClashes(old(db.workouts), w.id, w.name)
    ensures r.Err? ==> r.error == OverlappingWorkout || r.error == DuplicateName
    ensures r.Err? ==>
      && db.workouts == old(db.workouts) && db.workoutExercises == old(db.workoutExercises)
      && db.workoutSets == old(db.workoutSets)
      && db.nextWorkoutExerciseId == old(db.nextWorkoutExerciseId) && db.nextWorkoutSetId == old(db.nextWorkoutSetId)
    ensures r.Ok? ==>
      && db.workouts == RewriteWhere(old(db.workouts), w.id, w.name, w.start, w.end)
      && db.workoutExercises == Reject(old(db.workoutExercises), WorkoutLinkOwner, w.id)
           + LinkRows(w.id, w.exercises, old(db.nextWorkoutExerciseId))
      && db.workoutSets == RejectIn(old(db.workoutSets), WorkoutSetOwner, OwnedLinkIds(old(db.workoutExercises), w.id))
           + SetRows(w.exercises, old(db.nextWorkoutExerciseId), old(db.nextWorkoutSetId))
      && db.nextWorkoutExerciseId == old(db.nextWorkoutExerciseId) + |w.exercises|
      && db.nextWorkoutSetId == old(db.nextWorkoutSetId) + SetCount(w.exercises)
  {
    if OverlapsOther(db.workouts, w.id, w.start, w.end) {
      return Err(OverlappingWorkout);
    }
    if UpdateClashes(db.workouts, w.id, w.name) {
      return Err(DuplicateName);
    }
    ghost var links, sets, nextLink, nextSet := db.workoutExercises, db.workoutSets, db.nextWorkoutExerciseId, db.nextWorkoutSetId;
    RewriteRow(db, w);
    assert db.workoutExercises == links && db.workoutSets == sets;
    assert db.nextWorkoutExerciseId == nextLink && db.nextWorkoutSetId == nextSet;
    DeleteChildren(db, w.id);
    ghost var kept, keptSets := db.workoutExercises, db.workoutSets;
    assert kept == Reject(links, WorkoutLinkOwner, w.id);
    assert keptSets == RejectIn(sets, WorkoutSetOwner, OwnedLinkIds(links, w.id));
    InsertChildren(db, w.id, w.exercises);
    assert db.workoutExercises == kept + LinkRows(w.id, w.exercises, nextLink);
    assert db.workoutSets == keptSets + SetRows(w.exercises, nextLink, nextSet);
    r := Ok(());
  }

  /**
   * `delete`: removes the sets of the workout's links, then the links, then
   * the workout row.
   */
  method Delete(db: Store, workoutId: int)
    requires db.Valid()
    modifies db`workouts, db`workoutExercises, db`workoutSets
    ensures db.Valid()
    ensures db.workoutSets ==
      RejectIn(old(db.workoutSets), WorkoutSetOwner, OwnedLinkIds(old(db.workoutExercises), workoutId))
    ensures db.workoutExercises == Reject(old(db.workoutExercises), WorkoutLinkOwner, workoutId)
    ensures db.workouts == Reject(old(db.workouts), WorkoutId, workoutId)
  {
    DeleteChildren(db, workoutId);
    DeleteRow(db, workoutId);
  }

  /** Deletes the row of workout `workoutId`, leaving its links and sets to the caller. */
  method DeleteRow(db: Store, workoutId: int)
    requires db.WorkoutsValid()
    modifies db`workouts
    ensures db.WorkoutsValid()
    ensures db.workouts == Reject(old(db.workouts), WorkoutId, workoutId)
  {
    var rest := Reject(db.workouts, WorkoutId, workoutId);
    var f := RejectEmbeds(db.workouts, WorkoutId, workoutId);
    EmbedsIdsFresh(rest, db.workouts, f, WorkoutId, db.nextWorkoutId);
    EmbedsNamesDistinct(rest, db.workouts, f, WorkoutName);
    EmbedsNoOverlaps(rest, db.workouts, f);
    db.workouts := rest;
  }

  // ---------------------------------------------------------------------------
  // What update and delete leave behind, and what a read returns after a write
  // ---------------------------------------------------------------------------

  /**
   * After update replaces the links of workout `id`, the workout owns exactly the
   * new links, and every other workout owns the links it owned before.
   */
  lemma UpdatedLinks(links: seq<WorkoutExerciseRow>, id: int, exercises: seq<WorkoutExercise>, base: int, k: int)
    ensures Select(Reject(links, WorkoutLinkOwner, id) + LinkRows(id, exercises, base), WorkoutLinkOwner, k)
         == if k == id then LinkRows(id, exercises, base) else Select(links, WorkoutLinkOwner, k)
  {
    SelectReject(links, WorkoutLinkOwner, id, k);
    if k == id {
      RejectMembers(links, WorkoutLinkOwner, id);
      SelectOnlyRight(Reject(links, WorkoutLinkOwner, id), LinkRows(id, exercises, base), WorkoutLinkOwner, k);
    } else {
      SelectNotRight(Reject(links, WorkoutLinkOwner, id), LinkRows(id, exercises, base), WorkoutLinkOwner, k);
    }
  }

  /** The ids of owned links were issued before `next`. */
  lemma OwnedLinkIdsBelow(links: seq<WorkoutExerciseRow>, id: int, next: int)
    requires IdsFresh(links, WorkoutLinkId, next)
    ensures forall l :: l in OwnedLinkIds(links, id) ==> 1 <= l < next
  {
  }

  /** The i-th new link owns exactly the set rows built for the i-th exercise, for every i. */
  predicate SetsBuilt(sets: seq<WorkoutSetRow>, exercises: seq<WorkoutExercise>, linkBase: int, setBase: int)
  {
    forall i :: 0 <= i < |exercises| ==>
      Select(sets, WorkoutSetOwner, linkBase + i) == BuiltSets(exercises, i, linkBase, setBase)
  }

  /** Appending the rows built for `exercises` to sets of earlier links leaves each new link exactly its own sets. */
  lemma AppendedSetsBuilt(kept: seq<WorkoutSetRow>, exercises: seq<WorkoutExercise>, linkBase: int, setBase: int)
    requires OwnersBelow(kept, WorkoutSetOwner, linkBase)
    ensures SetsBuilt(kept + SetRows(exercises, linkBase, setBase), exercises, linkBase, setBase)
  {
    forall i | 0 <= i < |exercises|
      ensures Select(kept + SetRows(exercises, linkBase, setBase), WorkoutSetOwner, linkBase + i)
           == BuiltSets(exercises, i, linkBase, setBase) {
      SelectConcat(kept, SetRows(exercises, linkBase, setBase), WorkoutSetOwner, linkBase + i);
      SelectNone(kept, WorkoutSetOwner, linkBase + i);
      SetRowsOwnedBy(exercises, linkBase, setBase, i);
    }
  }

  /** After update replaces the sets of workout `id`, no set of an old link of the workout remains. */
  lemma UpdatedSetsGone(links: seq<WorkoutExerciseRow>, sets: seq<WorkoutSetRow>, id: int,
                        exercises: seq<WorkoutExercise>, linkBase: int, setBase: int)
    requires IdsFresh(links, WorkoutLinkId, linkBase)
    ensures var sets' := RejectIn(sets, WorkoutSetOwner, OwnedLinkIds(links, id)) + SetRows(exercises, linkBase, setBase);
      forall j :: 0 <= j < |sets'| ==> sets'[j].workoutExerciseId !in OwnedLinkIds(links, id)
  {
    var ids := OwnedLinkIds(links, id);
    var kept: seq<WorkoutSetRow> := RejectIn(sets, WorkoutSetOwner, ids);
    var added: seq<WorkoutSetRow> := SetRows(exercises, linkBase, setBase);
    OwnedLinkIdsBelow(links, id, linkBase);
    RejectInMembers(sets, WorkoutSetOwner, ids);
    SetRowsOwners(exercises, linkBase, setBase);
    forall j | 0 <= j < |kept + added| ensures (kept + added)[j].workoutExerciseId !in ids {
      if j >= |kept| {
        assert (kept + added)[j] == added[j - |kept|];
      }
    }
  }

  /** After update replaces the sets of workout `id`, the i-th new link owns exactly the sets built from the i-th exercise. */
  lemma UpdatedSetsBuilt(links: seq<WorkoutExerciseRow>, sets: seq<WorkoutSetRow>, id: int,
                         exercises: seq<WorkoutExercise>, linkBase: int, setBase: int)
    requires OwnersBelow(sets, WorkoutSetOwner, linkBase)
    ensures SetsBuilt(RejectIn(sets, WorkoutSetOwner, OwnedLinkIds(links, id)) + SetRows(exercises, linkBase, setBase),
                      exercises, linkBase, setBase)
  {
    var ids := OwnedLinkIds(links, id);
    RejectInMembers(sets, WorkoutSetOwner, ids);
    AppendedSetsBuilt(RejectIn(sets, WorkoutSetOwner, ids), exercises, linkBase, setBase);
  }

  /** After update replaces the sets of workout `id`, every other issued link owns the sets it owned before. */
  lemma UpdatedSetsOthers(links: seq<WorkoutExerciseRow>, sets: seq<WorkoutSetRow>, id: int,
                          exercises: seq<WorkoutExercise>, linkBase: int, setBase: int, l: int)
    requires l < linkBase && l !in OwnedLinkIds(links, id)
    ensures Select(RejectIn(sets, WorkoutSetOwner, OwnedLinkIds(links, id)) + SetRows(exercises, linkBase, setBase),
                   WorkoutSetOwner, l)
         == Select(sets, WorkoutSetOwner, l)
  {
    var ids := OwnedLinkIds(links, id);
    SetRowsOwners(exercises, linkBase, setBase);
    SelectNotRight(RejectIn(sets, WorkoutSetOwner, ids), SetRows(exercises, linkBase, setBase), WorkoutSetOwner, l);
    SelectRejectIn(sets, WorkoutSetOwner, ids, l);
  }

  /**
   * After delete of workout `id`: no workout row with that id, no link of that
   * workout and no set of those links remain; every other workout keeps its
   * links and every other link its sets.
   */
  lemma DeletedLeavesNoTrace(workouts: seq<WorkoutRow>, links: seq<WorkoutExerciseRow>,
                             sets: seq<WorkoutSetRow>, id: int)
    ensures forall i :: 0 <= i < |Reject(workouts, WorkoutId, id)| ==> Reject(workouts, WorkoutId, id)[i].id != id
    ensures Select(Reject(links, WorkoutLinkOwner, id), WorkoutLinkOwner, id) == []
    ensures forall j :: 0 <= j < |RejectIn(sets, WorkoutSetOwner, OwnedLinkIds(links, id))| ==>
      RejectIn(sets, WorkoutSetOwner, OwnedLinkIds(links, id))[j].workoutExerciseId !in OwnedLinkIds(links, id)
    ensures forall k :: k != id ==>
      Select(Reject(links, WorkoutLinkOwner, id), WorkoutLinkOwner, k) == Select(links, WorkoutLinkOwner, k)
    ensures forall l :: l !in OwnedLinkIds(links, id) ==>
      Select(RejectIn(sets, WorkoutSetOwner, OwnedLinkIds(links, id)), WorkoutSetOwner, l)
        == Select(sets, WorkoutSetOwner, l)
  {
    RejectMembers(workouts, WorkoutId, id);
    RejectInMembers(sets, WorkoutSetOwner, OwnedLinkIds(links, id));
    forall k {
      SelectReject(links, WorkoutLinkOwner, id, k);
    }
    forall l {
      SelectRejectIn(sets, WorkoutSetOwner, OwnedLinkIds(links, id), l);
    }
  }

  /** The set records a read returns for sets stored by `SetRowsOf`. */
  function StoredSets(sets: seq<WorkoutSet>, linkId: int, base: int): (r: seq<WorkoutSet>)
    ensures |r| == |sets|
  {
    seq(|sets|, k requires 0 <= k < |sets| => WorkoutSet(base + k, linkId, sets[k].setNumber, sets[k].weight, sets[k].reps))
  }

  /** The record a read returns for the i-th exercise of a workout stored by insert or update. */
  function StoredExercise(exercises: seq<WorkoutExercise>, i: int, workoutId: int, linkBase: int, setBase: int)
    : WorkoutExercise
    requires 0 <= i < |exercises|
  {
    WorkoutExercise(linkBase + i, workoutId, exercises[i].exercise, exercises[i].order,
      StoredSets(exercises[i].sets, linkBase + i, setBase + SetCount(exercises[..i])))
  }

  /** The exercise records a read returns for a workout stored by insert or update. */
  function StoredExercises(exercises: seq<WorkoutExercise>, workoutId: int, linkBase: int, setBase: int)
    : (r: seq<WorkoutExercise>)
    ensures |r| == |exercises|
  {
    seq(|exercises|, i requires 0 <= i < |exercises| => StoredExercise(exercises, i, workoutId, linkBase, setBase))
  }

  /** Positions ascend, sets ascend by number, and every exercise is the stored record with its id. */
  predicate WellFormedInput(exercises: seq<WorkoutExercise>, records: seq<Exercise>)
  {
    && (forall a, b :: 0 <= a < b < |exercises| ==> exercises[a].order <= exercises[b].order)
    && (forall i :: 0 <= i < |exercises| ==> FindExercise(records, exercises[i].exercise.id) == Some(exercises[i].exercise))
    && (forall i, a, b :: 0 <= i < |exercises| && 0 <= a < b < |exercises[i].sets| ==>
          exercises[i].sets[a].setNumber <= exercises[i].sets[b].setNumber)
  }

  lemma StoredSetRecords(built: seq<WorkoutSet>, linkId: int, base: int)
    ensures SetRecords(SetRowsOf(built, linkId, base)) == StoredSets(built, linkId, base)
  {
  }

  lemma ReadSets(sets: seq<WorkoutSetRow>, built: seq<WorkoutSet>, linkId: int, base: int)
    requires Select(sets, WorkoutSetOwner, linkId) == SetRowsOf(built, linkId, base)
    requires forall a, b :: 0 <= a < b < |built| ==> built[a].setNumber <= built[b].setNumber
    ensures GetWorkoutSets(sets, linkId) == StoredSets(built, linkId, base)
  {
    var rows := SetRowsOf(built, linkId, base);
    assert SortedBy(rows, WorkoutSetNumber);
    SortBySorted(rows, WorkoutSetNumber);
    StoredSetRecords(built, linkId, base);
  }

  /** Reading one link row a write built gives the input exercise with its stored ids. */
  lemma ReadLink(sets: seq<WorkoutSetRow>, records: seq<Exercise>, link: WorkoutExerciseRow,
                 te: WorkoutExercise, workoutId: int, linkId: int, base: int)
    requires link == WorkoutExerciseRow(linkId, workoutId, te.exercise.id, te.order)
    requires FindExercise(records, te.exercise.id) == Some(te.exercise)
    requires forall a, b :: 0 <= a < b < |te.sets| ==> te.sets[a].setNumber <= te.sets[b].setNumber
    requires Select(sets, WorkoutSetOwner, linkId) == SetRowsOf(te.sets, linkId, base)
    ensures Resolves(records, link)
    ensures LinkRecord(link, sets, records)
         == WorkoutExercise(linkId, workoutId, te.exercise, te.order, StoredSets(te.sets, linkId, base))
  {
    ReadSets(sets, te.sets, linkId, base);
  }

  /** Reading the i-th link row a write built from well-formed exercises gives the i-th stored record. */
  lemma ReadLinkAt(sets: seq<WorkoutSetRow>, records: seq<Exercise>,
                   id: int, exercises: seq<WorkoutExercise>, linkBase: int, setBase: int, i: int)
    requires WellFormedInput(exercises, records)
    requires SetsBuilt(sets, exercises, linkBase, setBase)
    requires 0 <= i < |exercises|
    ensures Resolves(records, LinkRows(id, exercises, linkBase)[i])
    ensures LinkRecord(LinkRows(id, exercises, linkBase)[i], sets, records)
         == StoredExercise(exercises, i, id, linkBase, setBase)
  {
    var te := exercises[i];
    var base := setBase + SetCount(exercises[..i]);
    assert Select(sets, WorkoutSetOwner, linkBase + i) == BuiltSets(exercises, i, linkBase, setBase);
    assert BuiltSets(exercises, i, linkBase, setBase) == SetRowsOf(te.sets, linkBase + i, base);
    assert forall a, b :: 0 <= a < b < |te.sets| ==> te.sets[a].setNumber <= te.sets[b].setNumber;
    ReadLink(sets, records, LinkRows(id, exercises, linkBase)[i], te, id, linkBase + i, base);
  }

  /** Assembling the link rows a write built from well-formed exercises gives the stored records. */
  lemma AssembleBuilt(sets: seq<WorkoutSetRow>, records: seq<Exercise>,
                      id: int, exercises: seq<WorkoutExercise>, linkBase: int, setBase: int)
    requires WellFormedInput(exercises, records)
    requires SetsBuilt(sets, exercises, linkBase, setBase)
    ensures AssembleLinks(LinkRows(id, exercises, linkBase), sets, records)
         == Ok(StoredExercises(exercises, id, linkBase, setBase))
  {
    var built := LinkRows(id, exercises, linkBase);
    var want := StoredExercises(exercises, id, linkBase, setBase);
    forall i | 0 <= i < |exercises|
      ensures Resolves(records, built[i]) && LinkRecord(built[i], sets, records) == want[i] {
      ReadLinkAt(sets, records, id, exercises, linkBase, setBase, i);
    }
    var r := AssembleLinks(built, sets, records);
    assert r.Ok?;
    assert r.value == want;
  }

  /**
   * Reading a workout whose link and set rows are exactly those a write built
   * from `exercises` returns those exercises with their stored ids filled in.
   */
  lemma ReadBack(links: seq<WorkoutExerciseRow>, sets: seq<WorkoutSetRow>, records: seq<Exercise>,
                 id: int, exercises: seq<WorkoutExercise>, linkBase: int, setBase: int)
    requires WellFormedInput(exercises, records)
    requires Select(links, WorkoutLinkOwner, id) == LinkRows(id, exercises, linkBase)
    requires SetsBuilt(sets, exercises, linkBase, setBase)
    ensures GetWorkoutExercises(links, sets, records, id) == Ok(StoredExercises(exercises, id, linkBase, setBase))
  {
    var built := LinkRows(id, exercises, linkBase);
    assert SortedBy(built, WorkoutLinkOrder);
    SortBySorted(built, WorkoutLinkOrder);
    AssembleBuilt(sets, records, id, exercises, linkBase, setBase);
  }

  /** After a successful insert, reading the new workout returns the input exercises with their stored ids. */
  lemma InsertThenRead(links: seq<WorkoutExerciseRow>, sets: seq<WorkoutSetRow>, records: seq<Exercise>,
                       newId: int, exercises: seq<WorkoutExercise>, linkBase: int, setBase: int)
    requires OwnersBelow(links, WorkoutLinkOwner, newId) && OwnersBelow(sets, WorkoutSetOwner, linkBase)
    requires WellFormedInput(exercises, records)
    ensures GetWorkoutExercises(links + LinkRows(newId, exercises, linkBase),
                                 sets + SetRows(exercises, linkBase, setBase), records, newId)
         == Ok(StoredExercises(exercises, newId, linkBase, setBase))
  {
    SelectOnlyRight(links, LinkRows(newId, exercises, linkBase), WorkoutLinkOwner, newId);
    AppendedSetsBuilt(sets, exercises, linkBase, setBase);
    ReadBack(links + LinkRows(newId, exercises, linkBase), sets + SetRows(exercises, linkBase, setBase),
      records, newId, exercises, linkBase, setBase);
  }

  /** After a successful update, reading the workout returns the new exercises with their stored ids. */
  lemma UpdateThenRead(links: seq<WorkoutExerciseRow>, sets: seq<WorkoutSetRow>, records: seq<Exercise>,
                       id: int, exercises: seq<WorkoutExercise>, linkBase: int, setBase: int)
    requires OwnersBelow(sets, WorkoutSetOwner, linkBase)
    requires WellFormedInput(exercises, records)
    ensures GetWorkoutExercises(Reject(links, WorkoutLinkOwner, id) + LinkRows(id, exercises, linkBase),
                                 RejectIn(sets, WorkoutSetOwner, OwnedLinkIds(links, id))
                                   + SetRows(exercises, linkBase, setBase), records, id)
         == Ok(StoredExercises(exercises, id, linkBase, setBase))
  {
    UpdatedLinks(links, id, exercises, linkBase, id);
    UpdatedSetsBuilt(links, sets, id, exercises, linkBase, setBase);
    ReadBack(Reject(links, WorkoutLinkOwner, id) + LinkRows(id, exercises, linkBase),
      RejectIn(sets, WorkoutSetOwner, OwnedLinkIds(links, id)) + SetRows(exercises, linkBase, setBase),
      records, id, exercises, linkBase, setBase);
  }
}
