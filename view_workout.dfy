/**
 * The summary of one workout on its view screen: the duration split into hours
 * and minutes, and the totals of volume, sets and reps over all its exercises.
 */
module ViewWorkout {

  import opened Model

  // ---------------------------------------------------------------------------
  // The totals
  // ---------------------------------------------------------------------------

  /** The reps of a list of sets. */
  function Reps(sets: seq<WorkoutSet>): int
  {
    if sets == [] then 0 else Reps(sets[..|sets| - 1]) + sets[|sets| - 1].reps
  }

  /** Total volume: the volume of each exercise, summed over the exercises. */
  function TotalVolume(exercises: seq<WorkoutExercise>): real
  {
    if exercises == [] then 0.0
    else TotalVolume(exercises[..|exercises| - 1]) + Volume(exercises[|exercises| - 1].sets)
  }

  /** Total sets: the length of each exercise's set list, summed. */
  function TotalSets(exercises: seq<WorkoutExercise>): int
  {
    if exercises == [] then 0
    else TotalSets(exercises[..|exercises| - 1]) + |exercises[|exercises| - 1].sets|
  }

  /** Total reps: the reps of each exercise's sets, summed. */
  function TotalReps(exercises: seq<WorkoutExercise>): int
  {
    if exercises == [] then 0
    else TotalReps(exercises[..|exercises| - 1]) + Reps(exercises[|exercises| - 1].sets)
  }

  /** Every set of the workout, exercise after exercise. */
  function AllSets(exercises: seq<WorkoutExercise>): (r: seq<WorkoutSet>)
  {
    if exercises == [] then []
    else AllSets(exercises[..|exercises| - 1]) + exercises[|exercises| - 1].sets
  }

  lemma {:induction false} VolumeConcat(a: seq<WorkoutSet>, b: seq<WorkoutSet>)
    ensures Volume(a + b) == Volume(a) + Volume(b)
  {
    if b != [] {
      var n := |b| - 1;
      VolumeConcat(a, b[..n]);
      assert (a + b)[..|a + b| - 1] == a + b[..n];
    } else {
      assert a + b == a;
    }
  }

  lemma {:induction false} RepsConcat(a: seq<WorkoutSet>, b: seq<WorkoutSet>)
    ensures Reps(a + b) == Reps(a) + Reps(b)
  {
    if b != [] {
      var n := |b| - 1;
      RepsConcat(a, b[..n]);
      assert (a + b)[..|a + b| - 1] == a + b[..n];
    } else {
      assert a + b == a;
    }
  }

  /** The total volume is the volume of all sets together: weight times reps over every set. */
  lemma {:induction false} TotalVolumeOfAllSets(exercises: seq<WorkoutExercise>)
    ensures TotalVolume(exercises) == Volume(AllSets(exercises))
  {
    if exercises != [] {
      var n := |exercises| - 1;
      TotalVolumeOfAllSets(exercises[..n]);
      VolumeConcat(AllSets(exercises[..n]), exercises[n].sets);
    }
  }

  /** The total sets count every set of every exercise once. */
  lemma {:induction false} TotalSetsOfAllSets(exercises: seq<WorkoutExercise>)
    ensures TotalSets(exercises) == |AllSets(exercises)|
  {
    if exercises != [] {
      TotalSetsOfAllSets(exercises[..|exercises| - 1]);
    }
  }

  /** The total reps are the reps of every set of every exercise. */
  lemma {:induction false} TotalRepsOfAllSets(exercises: seq<WorkoutExercise>)
    ensures TotalReps(exercises) == Reps(AllSets(exercises))
  {
    if exercises != [] {
      var n := |exercises| - 1;
      TotalRepsOfAllSets(exercises[..n]);
      RepsConcat(AllSets(exercises[..n]), exercises[n].sets);
    }
  }

  /** A workout without exercises shows zero for all three totals. */
  lemma TotalsOfNothing()
    ensures TotalVolume([]) == 0.0 && TotalSets([]) == 0 && TotalReps([]) == 0
  {
  }

  /** With no set of negative reps, the total reps are never negative. */
  lemma {:induction false} TotalRepsNonNegative(exercises: seq<WorkoutExercise>)
    requires forall i, j :: 0 <= i < |exercises| && 0 <= j < |exercises[i].sets| ==> exercises[i].sets[j].reps >= 0
    ensures TotalReps(exercises) >= 0
  {
    if exercises != [] {
      var n := |exercises| - 1;
      TotalRepsNonNegative(exercises[..n]);
      RepsNonNegative(exercises[n].sets);
    }
  }

  lemma {:induction false} RepsNonNegative(sets: seq<WorkoutSet>)
    requires forall j :: 0 <= j < |sets| ==> sets[j].reps >= 0
    ensures Reps(sets) >= 0
  {
    if sets != [] {
      RepsNonNegative(sets[..|sets| - 1]);
    }
  }

  // ---------------------------------------------------------------------------
  // The duration
  // ---------------------------------------------------------------------------

  /** Division on the JVM's `long`: the quotient is truncated toward zero. */
  function Quot(a: int, b: int): int
    requires b > 0
  {
    if a >= 0 then a / b else -((-a) / b)
  }

  /** `%` on the JVM's `long`: the remainder takes the sign of the dividend. */
  function Rem(a: int, b: int): int
    requires b > 0
  {
    if a >= 0 then a % b else -((-a) % b)
  }

  /** What the screen shows of a duration: `toHours()` and `toMinutes() % 60`. */
  datatype Shown = Shown(hours: int, minutes: int)

  /** The duration from `start` to `end`, both in seconds, as hours and minutes. */
  function DurationShown(start: int, end: int): Shown
  {
    var seconds := end - start;
    Shown(Quot(seconds, 3600), Rem(Quot(seconds, 60), 60))
  }

  lemma HoursAreMinutesOverSixty(s: nat)
    ensures s / 3600 == (s / 60) / 60
  {
    var q, r := s / 60, s % 60;
    var q2, r2 := q / 60, q % 60;
    assert s == 3600 * q2 + (60 * r2 + r);
  }

  /**
   * A workout that ends after it starts shows minutes between 0 and 59, and the
   * hours and minutes together make up its whole minutes.
   */
  lemma DurationShownForward(start: int, end: int)
    requires start <= end
    ensures 0 <= DurationShown(start, end).minutes <= 59
    ensures DurationShown(start, end).hours * 60 + DurationShown(start, end).minutes == (end - start) / 60
    ensures DurationShown(start, end).hours == (end - start) / 3600
  {
    HoursAreMinutesOverSixty(end - start);
  }

  /**
   * A workout that ends before it starts shows the forward split with both
   * parts negated: the minutes lie between -59 and 0.
   */
  lemma DurationShownBackward(start: int, end: int)
    requires end < start
    ensures DurationShown(start, end) == Shown(-DurationShown(end, start).hours, -DurationShown(end, start).minutes)
    ensures -59 <= DurationShown(start, end).minutes <= 0
  {
    DurationShownForward(end, start);
  }

  /** Ninety minutes show as one hour and thirty minutes; a minute short of an hour, backwards, as `0h -59m`. */
  lemma DurationShownExamples()
    ensures DurationShown(0, 5400) == Shown(1, 30)
    ensures DurationShown(3599, 0) == Shown(0, -59)
  {
  }
}
