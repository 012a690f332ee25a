/**
 * The progress screen of one exercise: every execution of the exercise across
 * the stored workouts becomes an entry (the workout's start and the volume
 * lifted), the entries are sorted by date, a next volume is forecast from the
 * mean increase, and the chart shows the recent entries plus the forecast.
 */
module Progress {

  import opened Wrappers
  import opened Seqs
  import opened Model
  import WorkoutRepository
  import Tables

  /** One execution: the date of the workout and the volume lifted in it. */
  datatype ProgressEntry = ProgressEntry(date: int, totalVolume: real)

  function EntryDate(e: ProgressEntry): int { e.date }

  /** The exercise a workout exercise lists. */
  function ListedExercise(we: WorkoutExercise): int { we.exercise.id }

  // ---------------------------------------------------------------------------
  // Collecting the entries
  // ---------------------------------------------------------------------------

  /** The entries one workout contributes: one per listing of the exercise, in listing order. */
  function WorkoutEntries(start: int, wes: seq<WorkoutExercise>, exerciseId: int): seq<ProgressEntry>
  {
    if wes == [] then []
    else
      var n := |wes| - 1;
      WorkoutEntries(start, wes[..n], exerciseId)
        + (if wes[n].exercise.id == exerciseId then [ProgressEntry(start, Volume(wes[n].sets))] else [])
  }

  /** The entries of all workouts, workout by workout. */
  function EntriesOf(workouts: seq<Workout>, exerciseId: int): seq<ProgressEntry>
  {
    if workouts == [] then []
    else
      var n := |workouts| - 1;
      EntriesOf(workouts[..n], exerciseId) + WorkoutEntries(workouts[n].start, workouts[n].exercises, exerciseId)
  }

  /** One entry per given workout exercise, dated `start`. */
  function EntriesFor(start: int, wes: seq<WorkoutExercise>): (r: seq<ProgressEntry>)
    ensures |r| == |wes|
    ensures forall j :: 0 <= j < |wes| ==> r[j] == ProgressEntry(start, Volume(wes[j].sets))
  {
    seq(|wes|, j requires 0 <= j < |wes| => ProgressEntry(start, Volume(wes[j].sets)))
  }

  /**
   * A workout contributes exactly the listings of the exercise, in order, each
   * with its own volume: listing the exercise twice yields two entries.
   */
  lemma {:induction false} WorkoutEntriesSelect(start: int, wes: seq<WorkoutExercise>, exerciseId: int)
    ensures WorkoutEntries(start, wes, exerciseId) == EntriesFor(start, Select(wes, ListedExercise, exerciseId))
  {
    if wes != [] {
      var n := |wes| - 1;
      WorkoutEntriesSelect(start, wes[..n], exerciseId);
      assert wes == wes[..n] + [wes[n]];
      SelectConcat(wes[..n], [wes[n]], ListedExercise, exerciseId);
      var front := Select(wes[..n], ListedExercise, exerciseId);
      var last := Select([wes[n]], ListedExercise, exerciseId);
      assert EntriesFor(start, front + last) == EntriesFor(start, front) + EntriesFor(start, last);
    }
  }

  /** One of the listings `wes` is of the exercise, with sets whose volume, dated `start`, is `e`. */
  ghost predicate Yields(start: int, wes: seq<WorkoutExercise>, exerciseId: int, e: ProgressEntry)
  {
    exists j :: 0 <= j < |wes| && wes[j].exercise.id == exerciseId && e == ProgressEntry(start, Volume(wes[j].sets))
  }

  /** A workout contributes an entry exactly when one of its listings of the exercise yields it. */
  lemma {:induction false} WorkoutEntriesMembers(start: int, wes: seq<WorkoutExercise>, exerciseId: int, e: ProgressEntry)
    ensures e in WorkoutEntries(start, wes, exerciseId) <==> Yields(start, wes, exerciseId, e)
  {
    if wes != [] {
      var n := |wes| - 1;
      WorkoutEntriesMembers(start, wes[..n], exerciseId, e);
      if Yields(start, wes, exerciseId, e) {
        var j :| 0 <= j < |wes| && wes[j].exercise.id == exerciseId && e == ProgressEntry(start, Volume(wes[j].sets));
        if j < n {
          assert wes[..n][j] == wes[j];
        }
      }
      if Yields(start, wes[..n], exerciseId, e) {
        var j :| 0 <= j < n && wes[..n][j].exercise.id == exerciseId && e == ProgressEntry(start, Volume(wes[..n][j].sets));
        assert wes[..n][j] == wes[j];
      }
    }
  }

  /** Workout `w` contributes entry `e` for the exercise. */
  predicate Contributes(w: Workout, exerciseId: int, e: ProgressEntry)
  {
    e in WorkoutEntries(w.start, w.exercises, exerciseId)
  }

  /** An entry is collected exactly when some workout contributes it. */
  lemma {:induction false} EntriesOfIn(workouts: seq<Workout>, exerciseId: int, e: ProgressEntry)
    ensures e in EntriesOf(workouts, exerciseId) <==> exists i :: 0 <= i < |workouts| && Contributes(workouts[i], exerciseId, e)
  {
    if workouts != [] {
      var n := |workouts| - 1;
      var init := workouts[..n];
      EntriesOfIn(init, exerciseId, e);
      assert EntriesOf(workouts, exerciseId)
          == EntriesOf(init, exerciseId) + WorkoutEntries(workouts[n].start, workouts[n].exercises, exerciseId);
      assert forall i :: 0 <= i < n ==> init[i] == workouts[i];
    }
  }

  /**
   * An entry is collected exactly when some workout lists the exercise: it
   * carries that workout's start and the volume of that listing's sets.
   */
  lemma EntriesOfMembers(workouts: seq<Workout>, exerciseId: int, e: ProgressEntry)
    ensures e in EntriesOf(workouts, exerciseId) <==>
      exists i :: 0 <= i < |workouts| && Yields(workouts[i].start, workouts[i].exercises, exerciseId, e)
  {
    EntriesOfIn(workouts, exerciseId, e);
    forall i | 0 <= i < |workouts|
      ensures Contributes(workouts[i], exerciseId, e) <==> Yields(workouts[i].start, workouts[i].exercises, exerciseId, e)
    {
      WorkoutEntriesMembers(workouts[i].start, workouts[i].exercises, exerciseId, e);
    }
  }

  /** The nested `forEach` of the collection step: appends an entry per listing of the exercise. */
  method CollectEntries(workouts: seq<Workout>, exerciseId: int) returns (entries: seq<ProgressEntry>)
    ensures entries == EntriesOf(workouts, exerciseId)
  {
    entries := [];
    var i := 0;
    while i < |workouts|
      invariant 0 <= i <= |workouts|
      invariant entries == EntriesOf(workouts[..i], exerciseId)
    {
      var w := workouts[i];
      var j := 0;
      while j < |w.exercises|
        invariant 0 <= j <= |w.exercises|
        invariant entries == EntriesOf(workouts[..i], exerciseId) + WorkoutEntries(w.start, w.exercises[..j], exerciseId)
      {
        var we := w.exercises[j];
        assert w.exercises[..j + 1][..j] == w.exercises[..j];
        if we.exercise.id == exerciseId {
          entries := entries + [ProgressEntry(w.start, Volume(we.sets))];
        }
        j := j + 1;
      }
      assert w.exercises[..j] == w.exercises;
      assert workouts[..i + 1][..i] == workouts[..i];
      i := i + 1;
    }
    assert workouts[..i] == workouts;
  }

  /**
   * The entry list is the collected entries reordered, ascending by date, the
   * entries of one date kept in collection order (`sortedBy` is stable).
   */
  lemma SortedEntries(workouts: seq<Workout>, exerciseId: int)
    ensures SortedBy(SortBy(EntriesOf(workouts, exerciseId), EntryDate), EntryDate)
    ensures multiset(SortBy(EntriesOf(workouts, exerciseId), EntryDate)) == multiset(EntriesOf(workouts, exerciseId))
    ensures forall d :: Select(SortBy(EntriesOf(workouts, exerciseId), EntryDate), EntryDate, d)
                     == Select(EntriesOf(workouts, exerciseId), EntryDate, d)
  {
    SortByOrdered(EntriesOf(workouts, exerciseId), EntryDate);
    SortByPermutes(EntriesOf(workouts, exerciseId), EntryDate);
    forall d ensures Select(SortBy(EntriesOf(workouts, exerciseId), EntryDate), EntryDate, d)
                  == Select(EntriesOf(workouts, exerciseId), EntryDate, d) {
      SortByStable(EntriesOf(workouts, exerciseId), EntryDate, d);
    }
  }

  // ---------------------------------------------------------------------------
  // The forecast
  // ---------------------------------------------------------------------------

  /** `zipWithNext`: the change in volume from each entry to the next. */
  function Increases(entries: seq<ProgressEntry>): (r: seq<real>)
    ensures |r| == if entries == [] then 0 else |entries| - 1
  {
    if entries == [] then []
    else seq(|entries| - 1, i requires 0 <= i < |entries| - 1 => entries[i + 1].totalVolume - entries[i].totalVolume)
  }

  function Sum(xs: seq<real>): real
  {
    if xs == [] then 0.0 else Sum(xs[..|xs| - 1]) + xs[|xs| - 1]
  }

  /** `average` of a non-empty list. */
  function Average(xs: seq<real>): real
    requires xs != []
  {
    Sum(xs) / (|xs| as real)
  }

  /** `computeNextExpected`: 0 below two entries, else the last volume plus the mean increase. */
  function NextExpected(entries: seq<ProgressEntry>): real
  {
    if |entries| < 2 then 0.0
    else entries[|entries| - 1].totalVolume + Average(Increases(entries))
  }

  /** The increases telescope: together they are the change from the first entry to the last. */
  lemma {:induction false} IncreasesTelescope(entries: seq<ProgressEntry>)
    requires entries != []
    ensures Sum(Increases(entries)) == entries[|entries| - 1].totalVolume - entries[0].totalVolume
  {
    var n := |entries| - 1;
    if n > 0 {
      IncreasesTelescope(entries[..n]);
      var all, front := Increases(entries), Increases(entries[..n]);
      forall i | 0 <= i < n - 1 ensures all[i] == front[i] {
        assert entries[..n][i] == entries[i] && entries[..n][i + 1] == entries[i + 1];
      }
      assert all[..n - 1] == front;
      assert Sum(all) == Sum(all[..n - 1]) + all[n - 1];
    } else {
      assert Increases(entries) == [];
    }
  }

  /**
   * The forecast is 0 for fewer than two entries; otherwise it extends the
   * line from the first to the last entry by one mean step.
   */
  lemma NextExpectedClosedForm(entries: seq<ProgressEntry>)
    ensures |entries| < 2 ==> NextExpected(entries) == 0.0
    ensures |entries| >= 2 ==>
      var first, last := entries[0].totalVolume, entries[|entries| - 1].totalVolume;
      NextExpected(entries) == last + (last - first) / ((|entries| - 1) as real)
  {
    if |entries| >= 2 {
      var inc := Increases(entries);
      IncreasesTelescope(entries);
      var first, last := entries[0].totalVolume, entries[|entries| - 1].totalVolume;
      var k := (|entries| - 1) as real;
      assert Sum(inc) == last - first && |inc| as real == k;
      assert NextExpected(entries) == last + Sum(inc) / k;
      SameQuotient(Sum(inc), last - first, k);
    }
  }

  lemma SameQuotient(a: real, b: real, k: real)
    requires a == b && k != 0.0
    ensures a / k == b / k
  {
  }

  /** Volumes rising by `step` from `base`, entry by entry. */
  predicate RisesBy(entries: seq<ProgressEntry>, base: real, step: real)
  {
    forall i :: 0 <= i < |entries| ==> entries[i].totalVolume == base + (i as real) * step
  }

  lemma RisesByEnds(entries: seq<ProgressEntry>, base: real, step: real)
    requires |entries| >= 1 && RisesBy(entries, base, step)
    ensures entries[0].totalVolume == base
    ensures entries[|entries| - 1].totalVolume == base + ((|entries| - 1) as real) * step
  {
    var i := |entries| - 1;
    assert entries[i].totalVolume == base + (i as real) * step;
    assert entries[0].totalVolume == base + (0 as real) * step;
  }

  /** Volumes rising by a fixed step forecast the next step. */
  lemma NextExpectedLinear(entries: seq<ProgressEntry>, base: real, step: real)
    requires |entries| >= 2 && RisesBy(entries, base, step)
    ensures NextExpected(entries) == entries[|entries| - 1].totalVolume + step
  {
    RisesByEnds(entries, base, step);
    NextExpectedFromEnds(entries, base, step);
  }

  /**
   * The forecast from the ends alone: the increases add up to `(n - 1) * step`
   * over n entries, so their mean is `step`.
   */
  lemma NextExpectedFromEnds(entries: seq<ProgressEntry>, base: real, step: real)
    requires |entries| >= 2
    requires entries[0].totalVolume == base
    requires entries[|entries| - 1].totalVolume == base + ((|entries| - 1) as real) * step
    ensures NextExpected(entries) == entries[|entries| - 1].totalVolume + step
  {
    var inc := Increases(entries);
    var k := (|entries| - 1) as real;
    IncreasesTelescope(entries);
    StepTotal(Sum(inc), entries[0].totalVolume, entries[|entries| - 1].totalVolume, base, step, k);
    ExactQuotient(Sum(inc), k, step);
  }

  /** Increases adding up to the rise from `base` to `base + k * step` total `k * step`. */
  lemma StepTotal(total: real, first: real, last: real, base: real, step: real, k: real)
    requires total == last - first && first == base && last == base + k * step
    ensures total == k * step
  {
  }

  lemma ExactQuotient(a: real, k: real, s: real)
    requires k > 0.0 && a == k * s
    ensures a / k == s
  {
    assert a / k * k == a;
  }

  /** Volumes 100, 120 and 150 forecast 175: the increases 20 and 30 average 25. */
  lemma NextExpectedExample(d0: int, d1: int, d2: int)
    ensures NextExpected([ProgressEntry(d0, 100.0), ProgressEntry(d1, 120.0), ProgressEntry(d2, 150.0)]) == 175.0
  {
    NextExpectedClosedForm([ProgressEntry(d0, 100.0), ProgressEntry(d1, 120.0), ProgressEntry(d2, 150.0)]);
  }

  // ---------------------------------------------------------------------------
  // The chart series
  // ---------------------------------------------------------------------------

  /** Seconds in a day. */
  const DaySeconds := 86400

  /** The entries dated strictly after `cutoff`, in order. */
  function After(entries: seq<ProgressEntry>, cutoff: int): (r: seq<ProgressEntry>)
    ensures |r| <= |entries|
  {
    if entries == [] then []
    else (if entries[0].date > cutoff then [entries[0]] else []) + After(entries[1..], cutoff)
  }

  /** `After` keeps an entry exactly when it is dated after the cutoff, as a subsequence of its input. */
  lemma {:induction false} AfterSpec(entries: seq<ProgressEntry>, cutoff: int) returns (f: seq<int>)
    ensures Embeds(After(entries, cutoff), entries, f)
    ensures forall e :: e in After(entries, cutoff) <==> e in entries && e.date > cutoff
  {
    if entries == [] {
      f := [];
    } else {
      var f' := AfterSpec(entries[1..], cutoff);
      f := EmbedsTail(entries, After(entries[1..], cutoff), f', entries[0].date > cutoff);
      assert entries == [entries[0]] + entries[1..];
    }
  }

  /**
   * The chart's points: nothing when there are no entries, otherwise the entries
   * after `threeMonthsAgo` and a last point for the forecast one day after `now`.
   * The clock and the calendar are not modelled: both instants are parameters.
   */
  function ChartEntries(all: seq<ProgressEntry>, nextExpected: real, now: int, threeMonthsAgo: int): seq<ProgressEntry>
  {
    if all == [] then []
    else After(all, threeMonthsAgo) + [ProgressEntry(now + DaySeconds, nextExpected)]
  }

  /**
   * The chart is empty exactly when there are no entries; otherwise it ends with
   * the forecast point and, before it, holds in order exactly the entries dated
   * after `threeMonthsAgo`.
   */
  lemma ChartEntriesSpec(all: seq<ProgressEntry>, nextExpected: real, now: int, threeMonthsAgo: int)
    returns (f: seq<int>)
    ensures ChartEntries(all, nextExpected, now, threeMonthsAgo) == [] <==> all == []
    ensures all != [] ==>
      var chart := ChartEntries(all, nextExpected, now, threeMonthsAgo);
      var recent := chart[..|chart| - 1];
      && chart[|chart| - 1] == ProgressEntry(now + DaySeconds, nextExpected)
      && Embeds(recent, all, f)
      && forall e :: e in recent <==> e in all && e.date > threeMonthsAgo
  {
    f := AfterSpec(all, threeMonthsAgo);
    if all != [] {
      var chart := ChartEntries(all, nextExpected, now, threeMonthsAgo);
      assert chart[..|chart| - 1] == After(all, threeMonthsAgo);
    }
  }

  // ---------------------------------------------------------------------------
  // The screen
  // ---------------------------------------------------------------------------

  /** The screen's state: the exercise shown and the sorted entry list. */
  class ProgressScreen {
    const exercise: Exercise
    var allProgressEntries: seq<ProgressEntry>

    constructor(exercise: Exercise)
      ensures this.exercise == exercise && allProgressEntries == []
    {
      this.exercise := exercise;
      allProgressEntries := [];
    }

    /**
     * The first-display effect: reads all workouts, collects the entries of the
     * exercise and stores them sorted by date. A failing read escapes the effect
     * and leaves the list as it was.
     */
    method Load(db: Tables.Store) returns (escaped: Option<Tables.Failure>)
      modifies this`allProgressEntries
      ensures escaped.Some? <==> WorkoutRepository.GetAll(db).Err?
      ensures escaped.Some? ==> escaped.value == WorkoutRepository.GetAll(db).error
      ensures escaped.Some? ==> allProgressEntries == old(allProgressEntries)
      ensures escaped.None? ==>
        allProgressEntries == SortBy(EntriesOf(WorkoutRepository.GetAll(db).value, exercise.id), EntryDate)
    {
      var workouts := WorkoutRepository.GetAll(db);
      if workouts.Err? {
        return Some(workouts.error);
      }
      var entries := CollectEntries(workouts.value, exercise.id);
      allProgressEntries := SortBy(entries, EntryDate);
      escaped := None;
    }
  }
}
