# rm-2025 workout tracker: a Dafny model of its store, analytics and save handlers

rm-2025 is a desktop workout tracker. It keeps exercises, workout templates and
recorded workouts in seven database tables:

- exercise;
- template, template_exercise and template_set;
- workout, workout_exercise and workout_set.

Three repository objects read and write these tables. Screens on top of them:

- show a workout's totals and duration;
- chart an exercise's progress and forecast its next volume;
- let the user add or edit an exercise, a template or a workout, checking the
  form before anything is stored.

This project models that core in Dafny and proves properties of the model.

- **`Tables`** — the store. A class `Store` holds:
  - the seven tables, as sequences of rows in storage order;
  - one auto-increment counter per table.

  Its invariant `Valid()` says:
  - every table's ids are issued by its counter in increasing order;
  - the three name columns are unique, as their unique indexes demand;
  - child rows point at ids their owner table has issued;
  - no two stored workouts overlap.

  A repository call is one transaction. A failing one leaves nothing behind.
- **`ExerciseRepository`, `TemplateRepository`, `WorkoutRepository`** — the
  repositories.
  - Each write is a method on the store. Its `ensures` state the new tables
    completely, the error cases included:
    - a name already stored violates the unique index (`DuplicateName`);
    - a workout span that overlaps another (`OverlappingWorkout`, with the
      source's message).
  - Each read is a function on the tables: `getAll` and its helpers.
  - Lemmas connect the two sides. Reading a template or workout back after
    `insert` or `update` returns the exercises and sets that were written,
    with their new ids. `delete` leaves no trace of the deleted record and
    touches no other.
- **`Progress`** — the progress screen of one exercise:
  - collects one entry per listing of the exercise in a stored workout;
  - sorts the entries by date, stably;
  - forecasts the next volume as the last volume plus the mean increase;
  - builds the chart series: the recent entries plus the forecast point.
- **`ViewWorkout`** — a workout's total volume, sets and reps, and how its
  duration is split into hours and minutes. The split uses the JVM's
  truncating division.
- **`EditExercise`, `EditTemplate`, `EditWorkout`** — the three Save handlers,
  each split into two parts:
  - a decision function over the form and the stored records, with a lemma
    that states every branch in source order;
  - a class holding the form's state, whose `Save` method performs the
    decision against the store.

  The workout screen's loading of a template into the form is modelled as
  well. The model's unique indexes compare names exactly, as the screens'
  `find { it.name == name }` does. Under that comparison the proofs show that
  the screens' own duplicate-name checks rule out every unique-index
  violation, so those repository calls cannot fail. The one failure left is
  then the workout repository's overlap refusal: the workout screen catches it
  and shows its message. Under MySQL's default collation the index compares
  names more loosely than the screens do; "## Left out" says what follows.

Modelling choices:

- Timestamps are whole seconds and weights are real numbers.
- The clock and the date/time parser are left out. `now`, "three months ago"
  and the parsed start and end are parameters instead.
- Kotlin's `isBlank` is modelled with the JVM's set of whitespace characters.

## Model

All source paths are under `composeApp/src/desktopMain/kotlin/ch/js/rm2025/`.

| member | source | states |
|---|---|---|
| Tables.Store.constructor | composeApp/src/desktopMain/kotlin/ch/js/rm2025/data/DatabaseFactory.kt:18-28 | The freshly created schema has seven empty tables, every counter at 1, and satisfies the store invariant. |
| Model.FindExercise | composeApp/src/desktopMain/kotlin/ch/js/rm2025/repository/TemplateRepository.kt:36 | `find { it.id == id }` finds something exactly when some exercise has the id. What it returns is a stored exercise with that id, and no earlier exercise has it. |
| ExerciseRepository.Records | composeApp/src/desktopMain/kotlin/ch/js/rm2025/repository/ExerciseRepository.kt:15-24 | `getAll` returns one record per row, in storage order, carrying that row's id, name, description and type. |
| ExerciseRepository.CountNameAtMostOne | composeApp/src/desktopMain/kotlin/ch/js/rm2025/data/tables/ExerciseTable.kt:7 | Under the unique name index, `getAll` lists a name once if it is stored and not at all otherwise. |
| ExerciseRepository.Insert | composeApp/src/desktopMain/kotlin/ch/js/rm2025/repository/ExerciseRepository.kt:26-32 | Fails with a unique-index violation exactly when the name is already stored, and then writes nothing. Otherwise it appends one row under the counter's id, returns that id, and keeps the store invariant. |
| ExerciseRepository.InsertThenGetAll | composeApp/src/desktopMain/kotlin/ch/js/rm2025/repository/ExerciseRepository.kt:15-32 | After a successful insert, `getAll` lists the new name exactly once, and looking up the returned id finds the inserted exercise. |
| ExerciseRepository.Update | composeApp/src/desktopMain/kotlin/ch/js/rm2025/repository/ExerciseRepository.kt:34-44 | Fails exactly when a row with the id exists and another row carries the new name, and then writes nothing. Otherwise, every row with the id takes the new name, description and type, other rows stay, and the invariant holds. |
| ExerciseRepository.RenameWhereEffect | composeApp/src/desktopMain/kotlin/ch/js/rm2025/repository/ExerciseRepository.kt:34-44 | The update changes exactly the fields of rows with the record's id. When no row has the id, it changes nothing. |
| ExerciseRepository.RenameWhereIdempotent | composeApp/src/desktopMain/kotlin/ch/js/rm2025/repository/ExerciseRepository.kt:36-43 | Applying the update a second time to the matched rows changes nothing more. |
| ExerciseRepository.Delete | composeApp/src/desktopMain/kotlin/ch/js/rm2025/repository/ExerciseRepository.kt:46-52 | Removes exactly the rows with the id, keeps the others in order, and keeps the store invariant. |
| ExerciseRepository.DeleteKeepsInvariant | composeApp/src/desktopMain/kotlin/ch/js/rm2025/repository/ExerciseRepository.kt:46-52 | Removing rows keeps ids fresh and names distinct, and deleting the same id twice equals deleting it once. |
| ExerciseRepository.DeleteEffect | composeApp/src/desktopMain/kotlin/ch/js/rm2025/repository/ExerciseRepository.kt:46-52 | After the delete, no row carries the id and every row with another id is still present. |
| ExerciseRepository.DefaultExercises | composeApp/src/desktopMain/kotlin/ch/js/rm2025/repository/ExerciseRepository.kt:57-77 | The seeded catalog has twenty exercises. |
| ExerciseRepository.DefaultNamesDistinct | composeApp/src/desktopMain/kotlin/ch/js/rm2025/repository/ExerciseRepository.kt:57-77 | The twenty catalog names are pairwise distinct, so seeding never hits the unique index. |
| ExerciseRepository.DefaultKinds | composeApp/src/desktopMain/kotlin/ch/js/rm2025/repository/ExerciseRepository.kt:57-77 | Every seeded exercise is of type barbell, dumbbell, cable or machine. |
| ExerciseRepository.SeedRows | composeApp/src/desktopMain/kotlin/ch/js/rm2025/repository/ExerciseRepository.kt:78-80 | Inserting a catalog in order stores one row per entry, under consecutive ids from the counter and with the entry's name. |
| ExerciseRepository.InsertEach | composeApp/src/desktopMain/kotlin/ch/js/rm2025/repository/ExerciseRepository.kt:78-80 | The `forEach { insert }` loop over distinct names stores exactly those seed rows, advances the counter by the catalog's length, and keeps the invariant. |
| ExerciseRepository.InsertDefaultExercises | composeApp/src/desktopMain/kotlin/ch/js/rm2025/repository/ExerciseRepository.kt:55-82 | Fills an empty table with the twenty catalog rows under consecutive fresh ids. Leaves a table that holds any row, and its counter, unchanged. The table is never empty afterwards. |
| ExerciseRepository.SeedTwice | composeApp/src/desktopMain/kotlin/ch/js/rm2025/data/DatabaseFactory.kt:47-50 | Seeding on every start is idempotent: seeding twice stores what seeding once does. |
| TemplateRepository.GetTemplateSetsSpec | composeApp/src/desktopMain/kotlin/ch/js/rm2025/repository/TemplateRepository.kt:47-59 | The result is a reordering of exactly the link's own set rows, ascending by set number. Sets that share a number keep their storage order. |
| TemplateRepository.GetTemplateExercisesFails | composeApp/src/desktopMain/kotlin/ch/js/rm2025/repository/TemplateRepository.kt:29-45 | Fails, with "Exercise not found", exactly when a link of the template names an exercise id that is not stored. |
| TemplateRepository.GetTemplateExercisesSpec | composeApp/src/desktopMain/kotlin/ch/js/rm2025/repository/TemplateRepository.kt:29-45 | The links read are exactly the template's own link rows, each once (a permutation of them), sorted ascending by position, with links sharing a position kept in storage order. On success there is one record per sorted link, in that order, each carrying the link's id, position, resolved exercise and exactly that link's sets. |
| TemplateRepository.AssembleTemplates | composeApp/src/desktopMain/kotlin/ch/js/rm2025/repository/TemplateRepository.kt:18-27 | The `map` over template rows succeeds exactly when every row's exercises can be read. It then returns one record per row, each carrying its row's id, name and exercises. |
| TemplateRepository.GetAllSpec | composeApp/src/desktopMain/kotlin/ch/js/rm2025/repository/TemplateRepository.kt:18-27 | `getAll` fails with "Exercise not found" exactly when a stored template links a missing exercise. Otherwise it lists every template row with its id and name. |
| TemplateRepository.Insert | composeApp/src/desktopMain/kotlin/ch/js/rm2025/repository/TemplateRepository.kt:61-82 | Fails exactly when the name is stored, and then writes nothing. Otherwise it stores the template row under a fresh id, then a link row per exercise and a set row per set under consecutive fresh ids, returns the id, and keeps the invariant. |
| TemplateRepository.RenameWhere | composeApp/src/desktopMain/kotlin/ch/js/rm2025/repository/TemplateRepository.kt:85-87 | The rename keeps every id and changes exactly the name of the row with the template's id. |
| TemplateRepository.Update | composeApp/src/desktopMain/kotlin/ch/js/rm2025/repository/TemplateRepository.kt:84-110 | Fails exactly when a row with the id exists and another row carries the new name, and then writes nothing. Otherwise it renames the row, deletes the sets of the template's old links and then the links, appends the new links and sets under fresh ids, and keeps the invariant. |
| TemplateRepository.Delete | composeApp/src/desktopMain/kotlin/ch/js/rm2025/repository/TemplateRepository.kt:112-119 | Removes the sets of the template's links, its links and its row. No other row changes, and the invariant holds. |
| TemplateRepository.DeletedLeavesNoTrace | composeApp/src/desktopMain/kotlin/ch/js/rm2025/repository/TemplateRepository.kt:112-119 | After the delete, no row, link or set of the template remains. Every other template keeps its links, and every other link its sets. |
| TemplateRepository.InsertThenRead | composeApp/src/desktopMain/kotlin/ch/js/rm2025/repository/TemplateRepository.kt:29-82 | After an insert of well-formed exercises, reading the new template returns exactly those exercises and sets, with their stored ids filled in. |
| TemplateRepository.UpdateThenRead | composeApp/src/desktopMain/kotlin/ch/js/rm2025/repository/TemplateRepository.kt:29-110 | After an update, reading the template returns exactly the new exercises and sets with their stored ids. No old link or set shows through. |
| WorkoutRepository.GetWorkoutSetsSpec | composeApp/src/desktopMain/kotlin/ch/js/rm2025/repository/WorkoutRepository.kt:50-63 | The result is a reordering of exactly the link's own set rows, ascending by set number, stable for equal numbers. |
| WorkoutRepository.GetWorkoutExercisesFails | composeApp/src/desktopMain/kotlin/ch/js/rm2025/repository/WorkoutRepository.kt:32-48 | Fails, with "Exercise not found", exactly when a link of the workout names a missing exercise. |
| WorkoutRepository.GetWorkoutExercisesSpec | composeApp/src/desktopMain/kotlin/ch/js/rm2025/repository/WorkoutRepository.kt:32-48 | The links read are exactly the workout's own link rows, each once (a permutation of them), sorted ascending by position, with links sharing a position kept in storage order. On success there is one record per sorted link, in that order, each carrying the link's id, position, resolved exercise and exactly that link's sets. |
| WorkoutRepository.AssembleWorkouts | composeApp/src/desktopMain/kotlin/ch/js/rm2025/repository/WorkoutRepository.kt:19-30 | The `map` over workout rows succeeds exactly when every row's exercises can be read. It then returns one record per row, with the row's id, name, start, end and exercises. |
| WorkoutRepository.GetAllSpec | composeApp/src/desktopMain/kotlin/ch/js/rm2025/repository/WorkoutRepository.kt:19-30 | `getAll` fails with "Exercise not found" exactly when a stored workout links a missing exercise. Otherwise it lists every workout row with its id, name and span. |
| WorkoutRepository.AppendNoOverlaps | composeApp/src/desktopMain/kotlin/ch/js/rm2025/repository/WorkoutRepository.kt:67-70 | A span that passes the closed-interval overlap check keeps the stored workouts pairwise apart once appended. |
| WorkoutRepository.Insert | composeApp/src/desktopMain/kotlin/ch/js/rm2025/repository/WorkoutRepository.kt:65-95 | Overlap with any stored span (touching ends count) refuses the insert. Failing that, a stored name violates the unique index. Either way nothing is written. Otherwise it stores the row, its links and its sets under fresh ids, returns the id, and keeps the invariant. |
| WorkoutRepository.RewriteWhere | composeApp/src/desktopMain/kotlin/ch/js/rm2025/repository/WorkoutRepository.kt:105-109 | The rewrite keeps every id and gives exactly the row with the workout's id the new name, start and end. |
| WorkoutRepository.Update | composeApp/src/desktopMain/kotlin/ch/js/rm2025/repository/WorkoutRepository.kt:97-132 | Overlap with another stored workout's span refuses the update. Failing that, it fails exactly when a row with the id exists and another row carries the new name. Either way nothing is written. Otherwise it rewrites the row, replaces the old links and sets by new ones under fresh ids, and keeps the invariant. |
| WorkoutRepository.Delete | composeApp/src/desktopMain/kotlin/ch/js/rm2025/repository/WorkoutRepository.kt:134-141 | Removes the sets of the workout's links, its links and its row. No other row changes, and the invariant holds. |
| WorkoutRepository.DeletedLeavesNoTrace | composeApp/src/desktopMain/kotlin/ch/js/rm2025/repository/WorkoutRepository.kt:134-141 | After the delete, no row, link or set of the workout remains. Every other workout keeps its links, and every other link its sets. |
| WorkoutRepository.InsertThenRead | composeApp/src/desktopMain/kotlin/ch/js/rm2025/repository/WorkoutRepository.kt:32-95 | After an insert of well-formed exercises, reading the new workout returns exactly those exercises and sets with their stored ids. |
| WorkoutRepository.UpdateThenRead | composeApp/src/desktopMain/kotlin/ch/js/rm2025/repository/WorkoutRepository.kt:32-132 | After an update, reading the workout returns exactly the new exercises and sets with their stored ids. |
| Seqs.SortByPermutes | composeApp/src/desktopMain/kotlin/ch/js/rm2025/ui/ProgressScreen.kt:62 | `sortedBy` returns a permutation of its input. |
| Seqs.SortByStable | composeApp/src/desktopMain/kotlin/ch/js/rm2025/ui/ProgressScreen.kt:62 | `sortedBy` keeps elements with equal keys in their input order. |
| Progress.WorkoutEntriesSelect | composeApp/src/desktopMain/kotlin/ch/js/rm2025/ui/ProgressScreen.kt:52-58 | A workout contributes one entry per listing of the exercise, in listing order: its start and the volume of that listing's sets. |
| Progress.WorkoutEntriesMembers | composeApp/src/desktopMain/kotlin/ch/js/rm2025/ui/ProgressScreen.kt:52-58 | An entry comes from a workout exactly when one of its listings of the exercise has that volume at that start. |
| Progress.EntriesOfIn | composeApp/src/desktopMain/kotlin/ch/js/rm2025/ui/ProgressScreen.kt:51-60 | An entry is collected exactly when some stored workout contributes it. |
| Progress.EntriesOfMembers | composeApp/src/desktopMain/kotlin/ch/js/rm2025/ui/ProgressScreen.kt:48-60 | An entry is collected exactly when some workout lists the exercise with sets of that volume, dated at the workout's start. |
| Progress.CollectEntries | composeApp/src/desktopMain/kotlin/ch/js/rm2025/ui/ProgressScreen.kt:50-60 | The nested `forEach` loops build exactly the entry list of the workouts, workout by workout. |
| Progress.SortedEntries | composeApp/src/desktopMain/kotlin/ch/js/rm2025/ui/ProgressScreen.kt:62 | The entry list is ascending by date and a permutation of the collected entries. Entries of the same date keep their collection order. |
| Progress.ProgressScreen.Load | composeApp/src/desktopMain/kotlin/ch/js/rm2025/ui/ProgressScreen.kt:48-63 | The first-display effect stores the sorted entries of the read workouts. A failing read escapes with its failure and leaves the list unchanged. |
| Progress.ProgressScreen.constructor | composeApp/src/desktopMain/kotlin/ch/js/rm2025/ui/ProgressScreen.kt:34-41 | The screen starts with an empty entry list. |
| Progress.Increases | composeApp/src/desktopMain/kotlin/ch/js/rm2025/ui/ProgressScreen.kt:131 | `zipWithNext` yields one increase fewer than there are entries, none for an empty list. |
| Progress.IncreasesTelescope | composeApp/src/desktopMain/kotlin/ch/js/rm2025/ui/ProgressScreen.kt:131 | The increases add up to the last volume minus the first. |
| Progress.NextExpectedClosedForm | composeApp/src/desktopMain/kotlin/ch/js/rm2025/ui/ProgressScreen.kt:129-134 | With fewer than two entries the forecast is 0. Otherwise it is the last volume plus (last − first) / (n − 1). |
| Progress.NextExpectedLinear | composeApp/src/desktopMain/kotlin/ch/js/rm2025/ui/ProgressScreen.kt:122-134 | Volumes rising by a fixed step forecast one more step, as the doc comment's "average of increases" promises. |
| Progress.NextExpectedFromEnds | composeApp/src/desktopMain/kotlin/ch/js/rm2025/ui/ProgressScreen.kt:129-134 | The forecast depends only on the two ends: ends n − 1 steps apart forecast one more step. |
| Progress.NextExpectedExample | composeApp/src/desktopMain/kotlin/ch/js/rm2025/ui/ProgressScreen.kt:129-134 | Volumes 100, 120 and 150 forecast 175. |
| Progress.AfterSpec | composeApp/src/desktopMain/kotlin/ch/js/rm2025/ui/ProgressScreen.kt:103 | The filter keeps, in order, exactly the entries dated strictly after the cutoff (`isAfter`). |
| Progress.ChartEntriesSpec | composeApp/src/desktopMain/kotlin/ch/js/rm2025/ui/ProgressScreen.kt:101-110 | The chart is empty exactly when there are no entries. Otherwise it ends with the forecast point one day after `now`, preceded in order by exactly the entries after the three-months cutoff. |
| ViewWorkout.TotalVolumeOfAllSets | composeApp/src/desktopMain/kotlin/ch/js/rm2025/ui/ViewWorkoutScreen.kt:58 | The nested `sumOf` of total volume equals weight × reps summed over every set of the workout. |
| ViewWorkout.TotalSetsOfAllSets | composeApp/src/desktopMain/kotlin/ch/js/rm2025/ui/ViewWorkoutScreen.kt:59 | The total sets count every set of every exercise once. |
| ViewWorkout.TotalRepsOfAllSets | composeApp/src/desktopMain/kotlin/ch/js/rm2025/ui/ViewWorkoutScreen.kt:60 | The total reps are the reps of every set of the workout, summed. |
| ViewWorkout.TotalsOfNothing | composeApp/src/desktopMain/kotlin/ch/js/rm2025/ui/ViewWorkoutScreen.kt:58-60 | A workout without exercises shows 0 for all three totals. |
| ViewWorkout.TotalRepsNonNegative | composeApp/src/desktopMain/kotlin/ch/js/rm2025/ui/ViewWorkoutScreen.kt:60 | Without sets of negative reps, the total reps are not negative. |
| ViewWorkout.DurationShownForward | composeApp/src/desktopMain/kotlin/ch/js/rm2025/ui/ViewWorkoutScreen.kt:39-40 | For a workout that ends after it starts, the minutes shown lie in 0..59, and hours × 60 + minutes is the whole minutes of the duration. |
| ViewWorkout.DurationShownBackward | composeApp/src/desktopMain/kotlin/ch/js/rm2025/ui/ViewWorkoutScreen.kt:39-40 | For an end before the start, truncation toward zero shows the forward split negated, with minutes in −59..0. |
| ViewWorkout.DurationShownExamples | composeApp/src/desktopMain/kotlin/ch/js/rm2025/ui/ViewWorkoutScreen.kt:39-40 | 90 minutes show as 1h 30m, and a backwards span of one second short of an hour as 0h −59m. |
| EditExercise.DecideSpec | composeApp/src/desktopMain/kotlin/ch/js/rm2025/ui/AddEditExerciseScreen.kt:97-114 | Save is ignored exactly when a field is blank. It otherwise refuses exactly a name that another stored exercise carries, a new exercise counting as different from every stored one. Otherwise it updates under the edited id or inserts with id 0. |
| EditExercise.KeepingOwnNameAllowed | composeApp/src/desktopMain/kotlin/ch/js/rm2025/ui/AddEditExerciseScreen.kt:100-102 | Editing an exercise and keeping its own stored name is an update, not a duplicate. |
| EditExercise.NotFoundIsFree | composeApp/src/desktopMain/kotlin/ch/js/rm2025/ui/AddEditExerciseScreen.kt:100-109 | A name `find` does not locate is not stored, so the insert cannot violate the unique index. Names are compared exactly. |
| EditExercise.FoundSelfIsFree | composeApp/src/desktopMain/kotlin/ch/js/rm2025/ui/AddEditExerciseScreen.kt:100-107 | A name found only on the edited exercise cannot make the update violate the unique index. Names are compared exactly. |
| EditExercise.DecidedWritesSucceed | composeApp/src/desktopMain/kotlin/ch/js/rm2025/ui/AddEditExerciseScreen.kt:97-114 | Whatever write Save decides on, the repository call cannot fail. Names are compared exactly. |
| EditExercise.ExerciseEditor.constructor | composeApp/src/desktopMain/kotlin/ch/js/rm2025/ui/AddEditExerciseScreen.kt:21-31 | The form opens with the edited exercise's fields, or empty, with no error and no unsaved change. |
| EditExercise.ExerciseEditor.Save | composeApp/src/desktopMain/kotlin/ch/js/rm2025/ui/AddEditExerciseScreen.kt:97-114 | A blank field changes nothing. A duplicate sets the message and writes nothing. Otherwise the exercise table ends as the update or insert leaves it, unsaved changes are cleared and the screen is left. Names are compared exactly. |
| EditTemplate.BuildSets | composeApp/src/desktopMain/kotlin/ch/js/rm2025/ui/AddEditTemplateScreen.kt:273-280 | The j-th set of an entry is numbered j + 1 and carries the entry's j-th reps. |
| EditTemplate.BuildExercises | composeApp/src/desktopMain/kotlin/ch/js/rm2025/ui/AddEditTemplateScreen.kt:267-282 | The i-th built exercise is at position i, with the entry's exercise and its built sets. |
| EditTemplate.LoadAfterBuild | composeApp/src/desktopMain/kotlin/ch/js/rm2025/ui/AddEditTemplateScreen.kt:61-70 | Loading built exercises back into the form gives the entries they were built from. |
| EditTemplate.ReopenedEntries | composeApp/src/desktopMain/kotlin/ch/js/rm2025/ui/AddEditTemplateScreen.kt:61-70 | Reopening a stored template shows the entries it was saved from, its stored ids notwithstanding. |
| EditTemplate.BuiltWellFormed | composeApp/src/desktopMain/kotlin/ch/js/rm2025/ui/AddEditTemplateScreen.kt:267-282 | Built exercises ascend by position and their sets by number, which is what a read needs to return them unchanged. |
| EditTemplate.EntryProblem | composeApp/src/desktopMain/kotlin/ch/js/rm2025/ui/AddEditTemplateScreen.kt:251-263 | An entry passes exactly when it names an exercise and has at least one set, every set with reps > 0. |
| EditTemplate.FirstProblemSpec | composeApp/src/desktopMain/kotlin/ch/js/rm2025/ui/AddEditTemplateScreen.kt:250-264 | The entries pass exactly when each one does. Otherwise the message is that of the first failing entry. |
| EditTemplate.PassingEntriesChosen | composeApp/src/desktopMain/kotlin/ch/js/rm2025/ui/AddEditTemplateScreen.kt:271 | After the checks pass, every entry names an exercise, so `entry.exercise!!` cannot throw. |
| EditTemplate.CheckEntries | composeApp/src/desktopMain/kotlin/ch/js/rm2025/ui/AddEditTemplateScreen.kt:250-264 | The `for` loop returns exactly the first entry's problem, or nothing. |
| EditTemplate.NameCheck | composeApp/src/desktopMain/kotlin/ch/js/rm2025/ui/AddEditTemplateScreen.kt:234-244 | The name checks either pass or end Save with a name error or an escaping read failure. |
| EditTemplate.EntriesCheck | composeApp/src/desktopMain/kotlin/ch/js/rm2025/ui/AddEditTemplateScreen.kt:245-301 | After the name passes, Save either rejects the entries or writes. |
| EditTemplate.DecideSpec | composeApp/src/desktopMain/kotlin/ch/js/rm2025/ui/AddEditTemplateScreen.kt:228-303 | Each branch is stated both ways, in the source's order. A blank name is refused with "Template name is required!". A failed read escapes. A name another template carries is refused with "A template with this name already exists!". An empty list is refused with "A template must have at least one exercise.". Otherwise the first entry with a problem gives the message. A form that passes every check is saved: inserted as the built template with id 0, or updated under the edited id. |
| EditTemplate.KeepingOwnNameAllowed | composeApp/src/desktopMain/kotlin/ch/js/rm2025/ui/AddEditTemplateScreen.kt:239-244 | Keeping an edited template's own name is never rejected. |
| EditTemplate.NotFoundIsFree | composeApp/src/desktopMain/kotlin/ch/js/rm2025/ui/AddEditTemplateScreen.kt:239-244 | A name `find` does not locate is not stored. |
| EditTemplate.FoundSelfIsFree | composeApp/src/desktopMain/kotlin/ch/js/rm2025/ui/AddEditTemplateScreen.kt:239-244 | A name found only on the edited template cannot make the update violate the unique index. Names are compared exactly. |
| EditTemplate.DecidedWritesSucceed | composeApp/src/desktopMain/kotlin/ch/js/rm2025/ui/AddEditTemplateScreen.kt:239-301 | Whatever write Save decides on, it cannot violate the template name index. Names are compared exactly. |
| EditTemplate.Write | composeApp/src/desktopMain/kotlin/ch/js/rm2025/ui/AddEditTemplateScreen.kt:284-301 | The decided insert or update succeeds and leaves the template tables exactly as the repository's contract describes. Names are compared exactly. |
| EditTemplate.TemplateEditor.constructor | composeApp/src/desktopMain/kotlin/ch/js/rm2025/ui/AddEditTemplateScreen.kt:55-70 | The form opens with the edited template's name and entries, or empty, with no errors. |
| EditTemplate.TemplateEditor.Check | composeApp/src/desktopMain/kotlin/ch/js/rm2025/ui/AddEditTemplateScreen.kt:234-282 | The read-only checks, with the entry loop, reach exactly the decision. A write they allow cannot violate the unique index. Names are compared exactly. |
| EditTemplate.TemplateEditor.Show | composeApp/src/desktopMain/kotlin/ch/js/rm2025/ui/AddEditTemplateScreen.kt:228-303 | The form's errors are cleared and at most one is then set. The screen is left exactly when Save writes. |
| EditTemplate.TemplateEditor.Save | composeApp/src/desktopMain/kotlin/ch/js/rm2025/ui/AddEditTemplateScreen.kt:228-303 | The errors shown are those of the decision, and a read failure escapes. A write leaves the tables as the repository describes, clears unsaved changes and leaves the screen. Any other outcome leaves the store and the form's flags unchanged. Names are compared exactly. |
| EditWorkout.BuildSets | composeApp/src/desktopMain/kotlin/ch/js/rm2025/ui/AddEditWorkoutScreen.kt:213-221 | The j-th set of an entry is numbered j + 1 and carries the entry's j-th weight and reps. |
| EditWorkout.BuildExercises | composeApp/src/desktopMain/kotlin/ch/js/rm2025/ui/AddEditWorkoutScreen.kt:207-223 | The i-th built exercise is at position i, with the entry's exercise and its built sets. |
| EditWorkout.LoadAfterBuild | composeApp/src/desktopMain/kotlin/ch/js/rm2025/ui/AddEditWorkoutScreen.kt:73-82 | Loading built exercises back into the form gives the entries they were built from. |
| EditWorkout.ReopenedEntries | composeApp/src/desktopMain/kotlin/ch/js/rm2025/ui/AddEditWorkoutScreen.kt:73-82 | Reopening a stored workout shows the entries it was saved from. |
| EditWorkout.FromTemplateAgrees | composeApp/src/desktopMain/kotlin/ch/js/rm2025/ui/AddEditWorkoutScreen.kt:132-143 | Filling the form from a template shows the exercises and reps the template screen shows for it, every set at weight 0. Every entry names an exercise. |
| EditWorkout.FromTemplateVolume | composeApp/src/desktopMain/kotlin/ch/js/rm2025/ui/AddEditWorkoutScreen.kt:132-143 | A workout saved straight from a template, before any weight is entered, has a total volume of 0. |
| EditWorkout.DecideSpec | composeApp/src/desktopMain/kotlin/ch/js/rm2025/ui/AddEditWorkoutScreen.kt:192-256 | The branches, in order and each stated both ways: an unparsable time; a blank name or no entries (nothing happens); a failed read; a name another workout carries; an entry without an exercise. Otherwise it inserts with id 0 or updates under the edited id, with the parsed span and the built exercises. |
| EditWorkout.KeepingOwnNameAllowed | composeApp/src/desktopMain/kotlin/ch/js/rm2025/ui/AddEditWorkoutScreen.kt:202-204 | Keeping an edited workout's own name is never rejected. |
| EditWorkout.NotFoundIsFree | composeApp/src/desktopMain/kotlin/ch/js/rm2025/ui/AddEditWorkoutScreen.kt:202-204 | A name `find` does not locate is not stored. |
| EditWorkout.FoundSelfIsFree | composeApp/src/desktopMain/kotlin/ch/js/rm2025/ui/AddEditWorkoutScreen.kt:202-204 | A name found only on the edited workout cannot make the update violate the unique index. Names are compared exactly. |
| EditWorkout.DecidedWritesSucceed | composeApp/src/desktopMain/kotlin/ch/js/rm2025/ui/AddEditWorkoutScreen.kt:202-246 | Whatever write Save decides on, it cannot violate the workout name index. Names are compared exactly. |
| EditWorkout.ReadLists | composeApp/src/desktopMain/kotlin/ch/js/rm2025/repository/WorkoutRepository.kt:19-30 | A successful read lists the workout rows in table order, with their ids and names. |
| EditWorkout.Write | composeApp/src/desktopMain/kotlin/ch/js/rm2025/ui/AddEditWorkoutScreen.kt:224-246 | The only way the decided write can fail is an overlapping span. It fails exactly then, and writes nothing. Otherwise the workout tables end as the repository describes. Names are compared exactly. |
| EditWorkout.WorkoutEditor.constructor | composeApp/src/desktopMain/kotlin/ch/js/rm2025/ui/AddEditWorkoutScreen.kt:48-82 | The form opens with the edited workout's name and entries (each exercise with its weights and reps), or empty, with no messages. |
| EditWorkout.WorkoutEditor.LoadTemplate | composeApp/src/desktopMain/kotlin/ch/js/rm2025/ui/AddEditWorkoutScreen.kt:130-143 | A chosen template replaces the entries by one per template exercise, its reps at weight 0, and marks the form changed. Without a choice nothing changes. |
| EditWorkout.WorkoutEditor.Check | composeApp/src/desktopMain/kotlin/ch/js/rm2025/ui/AddEditWorkoutScreen.kt:196-223 | The read-only checks reach exactly the decision. A write they allow cannot violate the unique index. Names are compared exactly. |
| EditWorkout.WorkoutEditor.Show | composeApp/src/desktopMain/kotlin/ch/js/rm2025/ui/AddEditWorkoutScreen.kt:192-256 | Both messages are cleared, then set from the outcome. A caught exception's message is shown, including the repository's overlap refusal. The screen is left exactly after a successful write. |
| EditWorkout.WorkoutEditor.Apply | composeApp/src/desktopMain/kotlin/ch/js/rm2025/ui/AddEditWorkoutScreen.kt:224-256 | A write that the repository refuses for overlap shows its message and leaves the store and the form's flags unchanged. A successful write leaves the tables as described and the screen. |
| EditWorkout.WorkoutEditor.Save | composeApp/src/desktopMain/kotlin/ch/js/rm2025/ui/AddEditWorkoutScreen.kt:192-256 | The messages are those of the decision over the store read before Save and of the repository's refusal. Only a successful write changes the workout tables, clears unsaved changes and leaves the screen. |

## Left out

- Foreign keys: the `references` constraints of the link and set tables are not modelled.
  - Deleting an exercise, template or workout is therefore never refused for being referenced.
  - A link can name an exercise that is not stored, so the "Exercise not found" path of `getAll` is reachable.
- Name uniqueness is modelled as exact string equality, both in the tables' unique indexes and in the screens' `find { it.name == name }`.
  - This is how the H2 fallback compares `varchar` values under its default settings.
  - The application connects to MySQL first (DatabaseFactory.kt line 12), and the name columns declare no collation (ExerciseTable.kt line 7, TemplateTable.kt line 7, WorkoutTable.kt line 8). MySQL 8's default collation, `utf8mb4_0900_ai_ci`, ignores case and accents.
  - There, a name that differs from a stored one only in case or accents (saving "barbell squat" while "Barbell Squat" is stored) passes the screen's check, and the index refuses the write. The exercise and template screens do not catch that exception; the workout screen shows its message (AddEditWorkoutScreen.kt lines 253-255).
  - The claims that a decided write cannot fail hold only under exact comparison. The lines below say so member by member.
- EditExercise.NotFoundIsFree: holds for an exactly compared unique index only; under a case- and accent-insensitive collation a name `find` misses can still be stored.
- EditExercise.FoundSelfIsFree: holds for an exactly compared unique index only.
- EditExercise.DecidedWritesSucceed: holds for an exactly compared unique index only; under MySQL's default collation the insert or update can be refused.
- EditTemplate.FoundSelfIsFree: holds for an exactly compared unique index only.
- EditTemplate.DecidedWritesSucceed: holds for an exactly compared unique index only.
- EditTemplate.Write: the write succeeds only under an exactly compared unique index; under MySQL's default collation it can fail, and the exception escapes the handler.
- EditWorkout.FoundSelfIsFree: holds for an exactly compared unique index only.
- EditWorkout.DecidedWritesSucceed: holds for an exactly compared unique index only.
- EditWorkout.Write: overlap is the only failure under an exactly compared unique index; under MySQL's default collation a duplicate name can fail it too, and the screen shows that message.
- EditExercise.ExerciseEditor.Save: the decided write succeeds only under an exactly compared unique index; under MySQL's default collation it can fail, and the exception escapes the handler.
- EditTemplate.TemplateEditor.Check: a write the checks allow cannot violate the index only when it compares names exactly.
- EditTemplate.TemplateEditor.Save: the decided write succeeds only under an exactly compared unique index; under MySQL's default collation the exception escapes the handler.
- EditWorkout.WorkoutEditor.Check: a write the checks allow cannot violate the index only when it compares names exactly.
- The unique-index error text comes from the database engine (MySQL or H2). It is modelled by one failure, `DuplicateName`, with a fixed message.
- Column widths (`varchar` lengths) and the 32-bit range of the integer id columns are not modelled.
- The database connection, the MySQL-to-H2 fallback and the schema creation are not modelled. They are I/O.
- The clock and the date/time parser are not modelled. `LocalDateTime.now()`, the three-months cutoff and the parsed start and end are parameters; an unparsable text is an absent value.
- The workout screen's default start and end texts (now, and an hour later) are left out.
- Transactions are modelled only as the all-or-nothing effect of one repository call. Concurrency is not modelled.
- Floating point: weights, volumes and the forecast are real numbers, so rounding is not modelled.
- The UI is not modelled: layout, navigation beyond the `closed` flag, the cancel-confirmation dialog, the table and the chart drawing. This covers ProgressScreen.kt lines 137-191.
- The template dialog's list and selection state is not modelled. LoadTemplate takes the selected template as a parameter.
- The form's field-edit handlers are not modelled: typing a name, adding an exercise (AddEditWorkoutScreen.kt lines 182-183), adding or removing a set or an entry. They only set form fields.
- The composable bodies load a stored record into the form whenever the entry list is empty. They do so not only on first display. The model loads once, in the constructor.
- The template screen's doc comment (AddEditTemplateScreen.kt lines 40-47) asks for unique exercises within a template. The Save handler does not enforce this, and neither does the model.
- The order in which a Save handler writes its form fields is not modelled, because nothing can observe it. Each method states the final state.
- ExampleRepository.kt, the other screens and the build files are not part of this model.
- ExerciseRepository.DefaultKinds: states that each seeded type is one of the four equipment types. It does not state which seeded exercise has which type.
- TemplateRepository.Update: requires the template id to be one the counter has issued. Ids only come from the counter, and the invariant that child rows point at issued ids needs this.
- WorkoutRepository.Update: requires the workout id to be one the workout counter has issued, for the same reason.
- EditTemplate.TemplateEditor.Save: requires an edited template's id to be one the counter has issued, as the repository's update does.
- EditWorkout.WorkoutEditor.Save: requires an edited workout's id to be one the counter has issued, as the repository's update does.
- EditTemplate.TemplateEditor.Save: a failing read of the templates escapes the handler uncaught, as no handler catches it. The model returns it, with the form's errors cleared and nothing written; what the application then does is not modelled.
- Progress.ProgressScreen.Load: a failing read escapes the effect. The model returns it and leaves the list unchanged.
