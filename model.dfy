/**
 * The records the repositories hand out and take in (the Kotlin `model` package).
 * An id of 0 marks a record that has not been stored yet.
 */
module Model {

  import opened Wrappers

  /** `kind` is the exercise's free-text type, such as "barbell". */
  datatype Exercise = Exercise(id: int, name: string, description: string, kind: string)

  datatype TemplateSet = TemplateSet(id: int, templateExerciseId: int, setNumber: int, reps: int)

  datatype TemplateExercise = TemplateExercise(
    id: int, templateId: int, exercise: Exercise, order: int, sets: seq<TemplateSet>)

  datatype Template = Template(id: int, name: string, exercises: seq<TemplateExercise>)

  /** Weights are kilograms; the source's `Double` is modelled as a real number. */
  datatype WorkoutSet = WorkoutSet(id: int, workoutExerciseId: int, setNumber: int, weight: real, reps: int)

  datatype WorkoutExercise = WorkoutExercise(
    id: int, workoutId: int, exercise: Exercise, order: int, sets: seq<WorkoutSet>)

  /** `start` and `end` are timestamps in seconds. */
  datatype Workout = Workout(id: int, name: string, start: int, end: int, exercises: seq<WorkoutExercise>)

  /** The volume of one exercise in one workout: the sum of weight times reps over its sets. */
  function Volume(sets: seq<WorkoutSet>): real
  {
    if sets == [] then 0.0
    else Volume(sets[..|sets| - 1]) + sets[|sets| - 1].weight * (sets[|sets| - 1].reps as real)
  }

  /** The first exercise with the given id, as Kotlin's `find { it.id == id }` returns it. */
  function FindExercise(exercises: seq<Exercise>, id: int): (r: Option<Exercise>)
    ensures r.Some? <==> exists i :: 0 <= i < |exercises| && exercises[i].id == id
    ensures r.Some? ==> r.value.id == id && r.value in exercises
    ensures r.Some? ==> exists i :: 0 <= i < |exercises| && exercises[i] == r.value
                          && forall j :: 0 <= j < i ==> exercises[j].id != id
  {
    if exercises == [] then None
    else if exercises[0].id == id then Some(exercises[0])
    else
      var r := FindExercise(exercises[1..], id);
      assert forall i :: 1 <= i < |exercises| ==> exercises[i] == exercises[1..][i - 1];
      if r.Some? then
        var i :| 0 <= i < |exercises[1..]| && exercises[1..][i] == r.value
                 && forall j :: 0 <= j < i ==> exercises[1..][j].id != id;
        assert exercises[i + 1] == r.value;
        r
      else r
  }
}
