/**
 * The seven tables of the workout store, as in-memory rows, and the store that
 * holds them together with one auto-increment counter per table.
 */
module Tables {

  import opened Seqs

  datatype ExerciseRow = ExerciseRow(id: int, name: string, description: string, kind: string)
  datatype TemplateRow = TemplateRow(id: int, name: string)
  datatype TemplateExerciseRow = TemplateExerciseRow(id: int, templateId: int, exerciseId: int, order: int)
  datatype TemplateSetRow = TemplateSetRow(id: int, templateExerciseId: int, setNumber: int, reps: int)
  datatype WorkoutRow = WorkoutRow(id: int, name: string, start: int, end: int)
  datatype WorkoutExerciseRow = WorkoutExerciseRow(id: int, workoutId: int, exerciseId: int, order: int)
  datatype WorkoutSetRow = WorkoutSetRow(id: int, workoutExerciseId: int, setNumber: int, weight: real, reps: int)

  /** The exceptions a repository call can raise. */
  datatype Failure =
    | OverlappingWorkout  // "Workout time overlaps with an existing workout"
    | DuplicateName       // a unique index on a name column was violated
    | ExerciseNotFound    // "Exercise not found": a link row names an exercise id that is not stored

  /** The text the Kotlin exception carries. The unique-index text comes from the database engine. */
  function Message(f: Failure): string
  {
    match f
    case OverlappingWorkout => "Workout time overlaps with an existing workout"
    case DuplicateName => "Unique index violation"
    case ExerciseNotFound => "Exercise not found"
  }

  // Column accessors, passed to the generic selections of module Seqs.
  function ExerciseId(r: ExerciseRow): int { r.id }
  function ExerciseName(r: ExerciseRow): string { r.name }
  function TemplateId(r: TemplateRow): int { r.id }
  function TemplateName(r: TemplateRow): string { r.name }
  function TemplateLinkId(r: TemplateExerciseRow): int { r.id }
  function TemplateLinkOwner(r: TemplateExerciseRow): int { r.templateId }
  function TemplateLinkOrder(r: TemplateExerciseRow): int { r.order }
  function TemplateSetId(r: TemplateSetRow): int { r.id }
  function TemplateSetOwner(r: TemplateSetRow): int { r.templateExerciseId }
  function TemplateSetNumber(r: TemplateSetRow): int { r.setNumber }
  function WorkoutId(r: WorkoutRow): int { r.id }
  function WorkoutName(r: WorkoutRow): string { r.name }
  function WorkoutLinkId(r: WorkoutExerciseRow): int { r.id }
  function WorkoutLinkOwner(r: WorkoutExerciseRow): int { r.workoutId }
  function WorkoutLinkOrder(r: WorkoutExerciseRow): int { r.order }
  function WorkoutSetId(r: WorkoutSetRow): int { r.id }
  function WorkoutSetOwner(r: WorkoutSetRow): int { r.workoutExerciseId }
  function WorkoutSetNumber(r: WorkoutSetRow): int { r.setNumber }

  /** The closed-interval test of the workout repository: touching endpoints overlap. */
  predicate Overlaps(stored: WorkoutRow, start: int, end: int)
  {
    stored.start <= end && stored.end >= start
  }

  /** No two stored workouts overlap. */
  predicate NoOverlaps(ws: seq<WorkoutRow>)
  {
    forall i, j :: 0 <= i < |ws| && 0 <= j < |ws| && i != j ==> !Overlaps(ws[i], ws[j].start, ws[j].end)
  }

  /** Some row in `rows` carries `name`. */
  predicate HasName<T>(rows: seq<T>, name: T -> string, n: string)
  {
    exists i :: 0 <= i < |rows| && name(rows[i]) == n
  }

  /** Every row's `owner` column points below `next`: only issued ids are referenced. */
  predicate OwnersBelow<T>(rows: seq<T>, owner: T -> int, next: int)
  {
    forall i :: 0 <= i < |rows| ==> owner(rows[i]) < next
  }

  class Store {
    var exercises: seq<ExerciseRow>
    var templates: seq<TemplateRow>
    var templateExercises: seq<TemplateExerciseRow>
    var templateSets: seq<TemplateSetRow>
    var workouts: seq<WorkoutRow>
    var workoutExercises: seq<WorkoutExerciseRow>
    var workoutSets: seq<WorkoutSetRow>

    // The next value of each table's auto-increment id column.
    var nextExerciseId: int
    var nextTemplateId: int
    var nextTemplateExerciseId: int
    var nextTemplateSetId: int
    var nextWorkoutId: int
    var nextWorkoutExerciseId: int
    var nextWorkoutSetId: int

    /**
     * The store's invariant: ids are issued by the counters in increasing order,
     * the three name columns are unique, child rows point at issued owner ids,
     * and no two workouts overlap.
     */
    predicate Valid()
      reads this
    {
      && ExercisesValid() && TemplatesValid() && TemplateLinksValid() && TemplateSetsValid()
      && WorkoutsValid() && WorkoutLinksValid() && WorkoutSetsValid()
    }

    // One part of the invariant per table, each reading only the fields it is about.

    predicate ExercisesValid()
      reads this`exercises, this`nextExerciseId
    {
      IdsFresh(exercises, ExerciseId, nextExerciseId) && NamesDistinct(exercises, ExerciseName)
    }

    predicate TemplatesValid()
      reads this`templates, this`nextTemplateId
    {
      IdsFresh(templates, TemplateId, nextTemplateId) && NamesDistinct(templates, TemplateName)
    }

    predicate TemplateLinksValid()
      reads this`templateExercises, this`nextTemplateExerciseId, this`nextTemplateId
    {
      && IdsFresh(templateExercises, TemplateLinkId, nextTemplateExerciseId)
      && OwnersBelow(templateExercises, TemplateLinkOwner, nextTemplateId)
    }

    predicate TemplateSetsValid()
      reads this`templateSets, this`nextTemplateSetId, this`nextTemplateExerciseId
    {
      && IdsFresh(templateSets, TemplateSetId, nextTemplateSetId)
      && OwnersBelow(templateSets, TemplateSetOwner, nextTemplateExerciseId)
    }

    predicate WorkoutsValid()
      reads this`workouts, this`nextWorkoutId
    {
      IdsFresh(workouts, WorkoutId, nextWorkoutId) && NamesDistinct(workouts, WorkoutName) && NoOverlaps(workouts)
    }

    predicate WorkoutLinksValid()
      reads this`workoutExercises, this`nextWorkoutExerciseId, this`nextWorkoutId
    {
      && IdsFresh(workoutExercises, WorkoutLinkId, nextWorkoutExerciseId)
      && OwnersBelow(workoutExercises, WorkoutLinkOwner, nextWorkoutId)
    }

    predicate WorkoutSetsValid()
      reads this`workoutSets, this`nextWorkoutSetId, this`nextWorkoutExerciseId
    {
      && IdsFresh(workoutSets, WorkoutSetId, nextWorkoutSetId)
      && OwnersBelow(workoutSets, WorkoutSetOwner, nextWorkoutExerciseId)
    }

    /** A fresh, empty store: every counter starts at 1. */
    constructor ()
      ensures Valid()
      ensures exercises == [] && templates == [] && templateExercises == [] && templateSets == []
      ensures workouts == [] && workoutExercises == [] && workoutSets == []
      ensures nextExerciseId == 1 && nextTemplateId == 1 && nextWorkoutId == 1
      ensures nextTemplateExerciseId == 1 && nextTemplateSetId == 1
      ensures nextWorkoutExerciseId == 1 && nextWorkoutSetId == 1
    {
      exercises, templates, templateExercises, templateSets := [], [], [], [];
      workouts, workoutExercises, workoutSets := [], [], [];
      nextExerciseId, nextTemplateId, nextTemplateExerciseId, nextTemplateSetId := 1, 1, 1, 1;
      nextWorkoutId, nextWorkoutExerciseId, nextWorkoutSetId := 1, 1, 1;
    }
  }

  /** A subsequence of rows still points at issued owner ids. */
  lemma EmbedsOwnersBelow<T>(r: seq<T>, s: seq<T>, f: seq<int>, owner: T -> int, next: int)
    requires Embeds(r, s, f) && OwnersBelow(s, owner, next)
    ensures OwnersBelow(r, owner, next)
  {
    forall a | 0 <= a < |r| ensures owner(r[a]) < next {
      assert r[a] == s[f[a]];
    }
  }

  /** Dropping workout rows keeps the rest pairwise apart. */
  lemma EmbedsNoOverlaps(r: seq<WorkoutRow>, s: seq<WorkoutRow>, f: seq<int>)
    requires Embeds(r, s, f) && NoOverlaps(s)
    ensures NoOverlaps(r)
  {
    forall a, b | 0 <= a < |r| && 0 <= b < |r| && a != b ensures !Overlaps(r[a], r[b].start, r[b].end) {
      assert r[a] == s[f[a]] && r[b] == s[f[b]];
      assert f[a] != f[b] by {
        if a < b { assert f[a] < f[b]; } else { assert f[b] < f[a]; }
      }
    }
  }
}
