/**
 * The template repository: a template row owns link rows (one per exercise of
 * the template, with its position) and each link owns set rows (set number and
 * reps). Reads assemble the records; writes replace the children wholesale.
 */
module TemplateRepository {

  import opened Wrappers
  import opened Seqs
  import opened Model
  import opened Tables
  import ExerciseRepository

  // ---------------------------------------------------------------------------
  // Rows written by insert and update
  // ---------------------------------------------------------------------------

  /** The link rows stored for `exercises` under template `templateId`, ids from `base`. */
  function LinkRows(templateId: int, exercises: seq<TemplateExercise>, base: int): (r: seq<TemplateExerciseRow>)
    ensures |r| == |exercises|
    ensures forall i :: 0 <= i < |r| ==>
      r[i] == TemplateExerciseRow(base + i, templateId, exercises[i].exercise.id, exercises[i].order)
  {
    seq(|exercises|, i requires 0 <= i < |exercises| =>
      TemplateExerciseRow(base + i, templateId, exercises[i].exercise.id, exercises[i].order))
  }

  /** The set rows stored for `sets` under link `linkId`, ids from `base`. */
  function SetRowsOf(sets: seq<TemplateSet>, linkId: int, base: int): (r: seq<TemplateSetRow>)
    ensures |r| == |sets|
    ensures forall k :: 0 <= k < |r| ==>
      r[k] == TemplateSetRow(base + k, linkId, sets[k].setNumber, sets[k].reps)
  {
    seq(|sets|, k requires 0 <= k < |sets| => TemplateSetRow(base + k, linkId, sets[k].setNumber, sets[k].reps))
  }

  /** How many sets the exercises hold together. */
  function SetCount(exercises: seq<TemplateExercise>): nat
  {
    if exercises == [] then 0
    else SetCount(exercises[..|exercises| - 1]) + |exercises[|exercises| - 1].sets|
  }

  /**
   * The set rows stored for all `exercises`: exercise i's sets hang off link
   * `linkBase + i`, and set ids run on from `setBase` across the exercises.
   */
  function SetRows(exercises: seq<TemplateExercise>, linkBase: int, setBase: int): (r: seq<TemplateSetRow>)
    ensures |r| == SetCount(exercises)
  {
    if exercises == [] then []
    else
      var init := exercises[..|exercises| - 1];
      SetRows(init, linkBase, setBase)
        + SetRowsOf(exercises[|exercises| - 1].sets, linkBase + |init|, setBase + SetCount(init))
  }

  /** Every set row of `SetRows` hangs off one of the new links. */
  lemma {:induction false} SetRowsOwners(exercises: seq<TemplateExercise>, linkBase: int, setBase: int)
    ensures forall k :: 0 <= k < |SetRows(exercises, linkBase, setBase)| ==>
      linkBase <= SetRows(exercises, linkBase, setBase)[k].templateExerciseId < linkBase + |exercises|
  {
    if exercises != [] {
      SetRowsOwners(exercises[..|exercises| - 1], linkBase, setBase);
    }
  }

  /** The set rows built for the i-th exercise: link `linkBase + i`, ids after those of exercises before it. */
  function BuiltSets(exercises: seq<TemplateExercise>, i: int, linkBase: int, setBase: int): seq<TemplateSetRow>
    requires 0 <= i < |exercises|
  {
    SetRowsOf(exercises[i].sets, linkBase + i, setBase + SetCount(exercises[..i]))
  }

  /** The sets owned by the i-th new link are exactly the sets of the i-th exercise, in input order. */
  lemma {:induction false} SetRowsOwnedBy(exercises: seq<TemplateExercise>, linkBase: int, setBase: int, i: int)
    requires 0 <= i < |exercises|
    ensures Select(SetRows(exercises, linkBase, setBase), TemplateSetOwner, linkBase + i)
         == BuiltSets(exercises, i, linkBase, setBase)
  {
    var n := |exercises| - 1;
    var init := exercises[..n];
    var front := SetRows(init, linkBase, setBase);
    var last := SetRowsOf(exercises[n].sets, linkBase + n, setBase + SetCount(init));
    assert SetRows(exercises, linkBase, setBase) == front + last;
    if i == n {
      SetRowsOwners(init, linkBase, setBase);
      SelectOnlyRight(front, last, TemplateSetOwner, linkBase + i);
    } else {
      SelectNotRight(front, last, TemplateSetOwner, linkBase + i);
      SetRowsOwnedBy(init, linkBase, setBase, i);
      assert init[..i] == exercises[..i] && init[i] == exercises[i];
    }
  }

  // ---------------------------------------------------------------------------
  // Read side: getTemplateSets, getTemplateExercises, getAll
  // ---------------------------------------------------------------------------

  function SetRecord(row: TemplateSetRow): TemplateSet
  {
    TemplateSet(row.id, row.templateExerciseId, row.setNumber, row.reps)
  }

  function SetRecords(rows: seq<TemplateSetRow>): (r: seq<TemplateSet>)
    ensures |r| == |rows| && forall k :: 0 <= k < |rows| ==> r[k] == SetRecord(rows[k])
  {
    seq(|rows|, k requires 0 <= k < |rows| => SetRecord(rows[k]))
  }

  /** `getTemplateSets`: the sets of one link, ordered by set number. */
  function GetTemplateSets(sets: seq<TemplateSetRow>, linkId: int): seq<TemplateSet>
  {
    SetRecords(SortBy(Select(sets, TemplateSetOwner, linkId), TemplateSetNumber))
  }

  /**
   * The sets `getTemplateSets` returns: a reordering of the link's own set rows,
   * ascending by set number, sets sharing a number kept in storage order.
   */
  lemma GetTemplateSetsSpec(sets: seq<TemplateSetRow>, linkId: int)
    ensures var owned := Select(sets, TemplateSetOwner, linkId);
      var sorted := SortBy(owned, TemplateSetNumber);
      && GetTemplateSets(sets, linkId) == SetRecords(sorted)
      && multiset(sorted) == multiset(owned)
      && (forall k :: 0 <= k < |sorted| ==> sorted[k] in sets && sorted[k].templateExerciseId == linkId)
      && (forall a, b :: 0 <= a < b < |sorted| ==> sorted[a].setNumber <= sorted[b].setNumber)
      && (forall n :: Select(sorted, TemplateSetNumber, n) == Select(owned, TemplateSetNumber, n))
  {
    var owned := Select(sets, TemplateSetOwner, linkId);
    SortByPermutes(owned, TemplateSetNumber);
    SortByOrdered(owned, TemplateSetNumber);
    SortedSelectMembers(sets, TemplateSetOwner, linkId, TemplateSetNumber);
    forall n ensures Select(SortBy(owned, TemplateSetNumber), TemplateSetNumber, n) == Select(owned, TemplateSetNumber, n) {
      SortByStable(owned, TemplateSetNumber, n);
    }
  }

  /** Whether `find` locates the exercise a link names. */
  predicate Resolves(exercises: seq<Exercise>, link: TemplateExerciseRow)
  {
    FindExercise(exercises, link.exerciseId).Some?
  }

  /** The record of one link, given that its exercise resolves. */
  function LinkRecord(link: TemplateExerciseRow, sets: seq<TemplateSetRow>, exercises: seq<Exercise>): TemplateExercise
    requires Resolves(exercises, link)
  {
    TemplateExercise(link.id, link.templateId, FindExercise(exercises, link.exerciseId).value,
      link.order, GetTemplateSets(sets, link.id))
  }

  /** The `map` over link rows: each becomes a record, and a missing exercise fails the whole read. */
  function AssembleLinks(links: seq<TemplateExerciseRow>, sets: seq<TemplateSetRow>, exercises: seq<Exercise>)
    : (r: Result<seq<TemplateExercise>, Failure>)
    ensures r.Err? ==> r.error == ExerciseNotFound
    ensures r.Ok? <==> forall i :: 0 <= i < |links| ==> Resolves(exercises, links[i])
    ensures r.Ok? ==> |r.value| == |links|
    ensures r.Ok? ==> forall i :: 0 <= i < |links| ==> r.value[i] == LinkRecord(links[i], sets, exercises)
  {
    if links == [] then Ok([])
    else if !Resolves(exercises, links[0]) then Err(ExerciseNotFound)
    else
      var rest := AssembleLinks(links[1..], sets, exercises);
      if rest.Err? then rest
      else
        assert forall i :: 1 <= i < |links| ==> links[1..][i - 1] == links[i];
        Ok([LinkRecord(links[0], sets, exercises)] + rest.value)
  }

  /** `getTemplateExercises`: the links of one template, ordered by position, as records. */
  function GetTemplateExercises(links: seq<TemplateExerciseRow>, sets: seq<TemplateSetRow>,
                                exercises: seq<Exercise>, templateId: int): Result<seq<TemplateExercise>, Failure>
  {
    AssembleLinks(SortBy(Select(links, TemplateLinkOwner, templateId), TemplateLinkOrder), sets, exercises)
  }

  /** Every link row of template `templateId` names a stored exercise. */
  predicate LinksResolve(links: seq<TemplateExerciseRow>, exercises: seq<Exercise>, templateId: int)
  {
    forall i :: 0 <= i < |links| && links[i].templateId == templateId ==> Resolves(exercises, links[i])
  }

  /**
   * `getTemplateExercises` fails, with "Exercise not found", exactly when a link
   * of the template names a missing exercise.
   */
  lemma GetTemplateExercisesFails(links: seq<TemplateExerciseRow>, sets: seq<TemplateSetRow>,
                                  exercises: seq<Exercise>, templateId: int)
    ensures GetTemplateExercises(links, sets, exercises, templateId).Ok? <==> LinksResolve(links, exercises, templateId)
    ensures GetTemplateExercises(links, sets, exercises, templateId).Err? ==>
      GetTemplateExercises(links, sets, exercises, templateId).error == ExerciseNotFound
  {
    var sorted := SortBy(Select(links, TemplateLinkOwner, templateId), TemplateLinkOrder);
    SortedSelectMembers(links, TemplateLinkOwner, templateId, TemplateLinkOrder);
    if LinksResolve(links, exercises, templateId) {
      forall k | 0 <= k < |sorted| ensures Resolves(exercises, sorted[k]) {
        var j :| 0 <= j < |links| && links[j] == sorted[k];
      }
    } else {
      var i :| 0 <= i < |links| && links[i].templateId == templateId && !Resolves(exercises, links[i]);
      var k :| 0 <= k < |sorted| && sorted[k] == links[i];
    }
  }

  /**
   * When `getTemplateExercises` succeeds it returns one record per link of the
   * template: the links read are exactly the template's own link rows, each once, sorted
   * ascending by position (links sharing a position kept in storage order), and
   * each record carries its link's id, position, resolved exercise and sets.
   */
  lemma GetTemplateExercisesSpec(links: seq<TemplateExerciseRow>, sets: seq<TemplateSetRow>,
                                 exercises: seq<Exercise>, templateId: int)
    ensures var owned := Select(links, TemplateLinkOwner, templateId);
      var sorted := SortBy(owned, TemplateLinkOrder);
      var r := GetTemplateExercises(links, sets, exercises, templateId);
      && multiset(sorted) == multiset(owned)
      && (forall k :: 0 <= k < |sorted| ==> sorted[k] in links && sorted[k].templateId == templateId)
      && (forall a, b :: 0 <= a < b < |sorted| ==> sorted[a].order <= sorted[b].order)
      && (forall n :: Select(sorted, TemplateLinkOrder, n) == Select(owned, TemplateLinkOrder, n))
      && (r.Ok? ==>
            && |r.value| == |sorted|
            && forall i :: 0 <= i < |r.value| ==>
                 && Resolves(exercises, sorted[i])
                 && r.value[i] == LinkRecord(sorted[i], sets, exercises)
                 && r.value[i].id == sorted[i].id && r.value[i].templateId == templateId
                 && r.value[i].order == sorted[i].order
                 && r.value[i].exercise == FindExercise(exercises, sorted[i].exerciseId).value
                 && r.value[i].sets == GetTemplateSets(sets, sorted[i].id))
  {
    var owned := Select(links, TemplateLinkOwner, templateId);
    SortedSelectMembers(links, TemplateLinkOwner, templateId, TemplateLinkOrder);
    SortByOrdered(owned, TemplateLinkOrder);
    SortByPermutes(owned, TemplateLinkOrder);
    forall n ensures Select(SortBy(owned, TemplateLinkOrder), TemplateLinkOrder, n) == Select(owned, TemplateLinkOrder, n) {
      SortByStable(owned, TemplateLinkOrder, n);
    }
  }

  /** The `map` over template rows: a template record per row, in storage order. */
  function AssembleTemplates(templates: seq<TemplateRow>, links: seq<TemplateExerciseRow>,
                             sets: seq<TemplateSetRow>, exercises: seq<Exercise>)
    : (r: Result<seq<Template>, Failure>)
    ensures r.Err? ==> r.error == ExerciseNotFound
    ensures r.Ok? <==> forall i :: 0 <= i < |templates| ==>
      GetTemplateExercises(links, sets, exercises, templates[i].id).Ok?
    ensures r.Ok? ==> |r.value| == |templates|
    ensures r.Ok? ==> forall i :: 0 <= i < |templates| ==>
      r.value[i] == Template(templates[i].id, templates[i].name,
                             GetTemplateExercises(links, sets, exercises, templates[i].id).value)
  {
    if templates == [] then Ok([])
    else
      var head := GetTemplateExercises(links, sets, exercises, templates[0].id);
      if head.Err? then Err(head.error)
      else
        var rest := AssembleTemplates(templates[1..], links, sets, exercises);
        if rest.Err? then rest
        else
          assert forall i :: 1 <= i < |templates| ==> templates[1..][i - 1] == templates[i];
          Ok([Template(templates[0].id, templates[0].name, head.value)] + rest.value)
  }

  /** `getAll`: every stored template with its exercises and sets. */
  function GetAll(db: Store): Result<seq<Template>, Failure>
    reads db
  {
    AssembleTemplates(db.templates, db.templateExercises, db.templateSets, ExerciseRepository.GetAll(db))
  }

  /**
   * `getAll` fails with "Exercise not found" exactly when some stored template
   * has a link naming a missing exercise; otherwise it lists every template row.
   */
  lemma GetAllSpec(db: Store)
    ensures GetAll(db).Ok? <==> forall i :: 0 <= i < |db.templates| ==>
      LinksResolve(db.templateExercises, ExerciseRepository.GetAll(db), db.templates[i].id)
    ensures GetAll(db).Err? ==> GetAll(db).error == ExerciseNotFound
    ensures GetAll(db).Ok? ==> |GetAll(db).value| == |db.templates| && forall i :: 0 <= i < |db.templates| ==>
      GetAll(db).value[i].id == db.templates[i].id && GetAll(db).value[i].name == db.templates[i].name
  {
    forall i | 0 <= i < |db.templates| {
      GetTemplateExercisesFails(db.templateExercises, db.templateSets, ExerciseRepository.GetAll(db), db.templates[i].id);
    }
  }

  // ---------------------------------------------------------------------------
  // Write side: insert, update, delete
  // ---------------------------------------------------------------------------

  lemma SetRowsOfSnoc(rows: seq<TemplateSetRow>, sets: seq<TemplateSet>, k: int, linkId: int, base: int)
    requires 0 <= k < |sets|
    ensures rows + SetRowsOf(sets[..k + 1], linkId, base)
         == (rows + SetRowsOf(sets[..k], linkId, base)) + [TemplateSetRow(base + k, linkId, sets[k].setNumber, sets[k].reps)]
  {
    assert SetRowsOf(sets[..k + 1], linkId, base)
        == SetRowsOf(sets[..k], linkId, base) + [TemplateSetRow(base + k, linkId, sets[k].setNumber, sets[k].reps)];
  }

  /** Inserts one set row per entry of `sets` under link `linkId`. */
  method InsertSets(db: Store, linkId: int, sets: seq<TemplateSet>)
    requires db.TemplateSetsValid() && linkId < db.nextTemplateExerciseId
    modifies db`templateSets, db`nextTemplateSetId
    ensures db.TemplateSetsValid()
    ensures db.templateSets == old(db.templateSets) + SetRowsOf(sets, linkId, old(db.nextTemplateSetId))
    ensures db.nextTemplateSetId == old(db.nextTemplateSetId) + |sets|
  {
    ghost var rows := db.templateSets;
    ghost var base := db.nextTemplateSetId;
    var k := 0;
    while k < |sets|
      invariant 0 <= k <= |sets|
      invariant db.TemplateSetsValid()
      invariant db.nextTemplateSetId == base + k
      invariant db.templateSets == rows + SetRowsOf(sets[..k], linkId, base)
    {
      var row := TemplateSetRow(db.nextTemplateSetId, linkId, sets[k].setNumber, sets[k].reps);
      AppendIdsFresh(db.templateSets, row, TemplateSetId, db.nextTemplateSetId);
      SetRowsOfSnoc(rows, sets, k, linkId, base);
      db.templateSets := db.templateSets + [row];
      db.nextTemplateSetId := db.nextTemplateSetId + 1;
      k := k + 1;
    }
    assert sets[..k] == sets;
  }

  lemma LinksStep(links: seq<TemplateExerciseRow>, templateId: int, exercises: seq<TemplateExercise>,
                  i: int, linkBase: int)
    requires 0 <= i < |exercises|
    ensures links + LinkRows(templateId, exercises[..i + 1], linkBase)
         == (links + LinkRows(templateId, exercises[..i], linkBase))
            + [TemplateExerciseRow(linkBase + i, templateId, exercises[i].exercise.id, exercises[i].order)]
  {
    assert LinkRows(templateId, exercises[..i + 1], linkBase) == LinkRows(templateId, exercises[..i], linkBase)
      + [TemplateExerciseRow(linkBase + i, templateId, exercises[i].exercise.id, exercises[i].order)];
  }

  lemma SetsStep(sets: seq<TemplateSetRow>, before: seq<TemplateSetRow>, added: seq<TemplateSetRow>,
                 exercises: seq<TemplateExercise>, i: int, linkBase: int, setBase: int)
    requires 0 <= i < |exercises|
    requires before == sets + SetRows(exercises[..i], linkBase, setBase)
    requires added == SetRowsOf(exercises[i].sets, linkBase + i, setBase + SetCount(exercises[..i]))
    ensures SetCount(exercises[..i + 1]) == SetCount(exercises[..i]) + |exercises[i].sets|
    ensures before + added == sets + SetRows(exercises[..i + 1], linkBase, setBase)
  {
    var front, grown := exercises[..i], exercises[..i + 1];
    assert grown[..|grown| - 1] == front && grown[|grown| - 1] == exercises[i];
    assert SetRows(grown, linkBase, setBase) == SetRows(front, linkBase, setBase) + added;
    assert (sets + SetRows(front, linkBase, setBase)) + added == sets + (SetRows(front, linkBase, setBase) + added);
  }

  /** Inserts the link row of one exercise under template `templateId`, then its sets. */
  method InsertLink(db: Store, templateId: int, te: TemplateExercise) returns (linkId: int)
    requires db.TemplateLinksValid() && db.TemplateSetsValid() && templateId < db.nextTemplateId
    modifies db`templateExercises, db`nextTemplateExerciseId, db`templateSets, db`nextTemplateSetId
    ensures db.TemplateLinksValid() && db.TemplateSetsValid()
    ensures linkId == old(db.nextTemplateExerciseId) && db.nextTemplateExerciseId == linkId + 1
    ensures db.templateExercises ==
      old(db.templateExercises) + [TemplateExerciseRow(linkId, templateId, te.exercise.id, te.order)]
    ensures db.templateSets == old(db.templateSets) + SetRowsOf(te.sets, linkId, old(db.nextTemplateSetId))
    ensures db.nextTemplateSetId == old(db.nextTemplateSetId) + |te.sets|
  {
    linkId := db.nextTemplateExerciseId;
    var link := TemplateExerciseRow(linkId, templateId, te.exercise.id, te.order);
    AppendIdsFresh(db.templateExercises, link, TemplateLinkId, linkId);
    db.templateExercises := db.templateExercises + [link];
    db.nextTemplateExerciseId := linkId + 1;
    InsertSets(db, linkId, te.sets);
  }

  /** Inserts the link rows of `exercises` under template `templateId`, each followed by its sets. */
  method InsertChildren(db: Store, templateId: int, exercises: seq<TemplateExercise>)
    requires db.Valid() && templateId < db.nextTemplateId
    modifies db`templateExercises, db`nextTemplateExerciseId, db`templateSets, db`nextTemplateSetId
    ensures db.Valid()
    ensures db.templateExercises ==
      old(db.templateExercises) + LinkRows(templateId, exercises, old(db.nextTemplateExerciseId))
    ensures db.templateSets ==
      old(db.templateSets) + SetRows(exercises, old(db.nextTemplateExerciseId), old(db.nextTemplateSetId))
    ensures db.nextTemplateExerciseId == old(db.nextTemplateExerciseId) + |exercises|
    ensures db.nextTemplateSetId == old(db.nextTemplateSetId) + SetCount(exercises)
  {
    ghost var links := db.templateExercises;
    ghost var sets := db.templateSets;
    ghost var linkBase := db.nextTemplateExerciseId;
    ghost var setBase := db.nextTemplateSetId;
    var i := 0;
    while i < |exercises|
      invariant 0 <= i <= |exercises|
      invariant db.TemplateLinksValid() && db.TemplateSetsValid()
      invariant db.nextTemplateExerciseId == linkBase + i
      invariant db.nextTemplateSetId == setBase + SetCount(exercises[..i])
      invariant db.templateExercises == links + LinkRows(templateId, exercises[..i], linkBase)
      invariant db.templateSets == sets + SetRows(exercises[..i], linkBase, setBase)
    {
      LinksStep(links, templateId, exercises, i, linkBase);
      SetsStep(sets, db.templateSets, SetRowsOf(exercises[i].sets, linkBase + i, db.nextTemplateSetId),
        exercises, i, linkBase, setBase);
      var _ := InsertLink(db, templateId, exercises[i]);
      i := i + 1;
    }
    assert exercises[..i] == exercises;
  }

  /**
   * `insert`: stores the template row under a fresh id, then a link row per
   * exercise and a set row per set, and returns the id. The repository checks
   * nothing itself: a stored name violates the unique index and nothing is written.
   */
  method Insert(db: Store, t: Template) returns (r: Result<int, Failure>)
    requires db.Valid()
    modifies db`templates, db`nextTemplateId, db`templateExercises, db`nextTemplateExerciseId,
      db`templateSets, db`nextTemplateSetId
    ensures db.Valid()
    ensures r.Err? <==> HasName(old(db.templates), TemplateName, t.name)
    ensures r.Err? ==> r.error == DuplicateName
    ensures r.Err? ==>
      && db.templates == old(db.templates) && db.templateExercises == old(db.templateExercises)
      && db.templateSets == old(db.templateSets) && db.nextTemplateId == old(db.nextTemplateId)
      && db.nextTemplateExerciseId == old(db.nextTemplateExerciseId) && db.nextTemplateSetId == old(db.nextTemplateSetId)
    ensures r.Ok? ==>
      && r.value == old(db.nextTemplateId) && db.nextTemplateId == r.value + 1
      && db.templates == old(db.templates) + [TemplateRow(r.value, t.name)]
      && db.templateExercises == old(db.templateExercises)
           + LinkRows(r.value, t.exercises, old(db.nextTemplateExerciseId))
      && db.templateSets == old(db.templateSets)
           + SetRows(t.exercises, old(db.nextTemplateExerciseId), old(db.nextTemplateSetId))
      && db.nextTemplateExerciseId == old(db.nextTemplateExerciseId) + |t.exercises|
      && db.nextTemplateSetId == old(db.nextTemplateSetId) + SetCount(t.exercises)
  {
    if HasName(db.templates, TemplateName, t.name) {
      return Err(DuplicateName);
    }
    var id := db.nextTemplateId;
    AppendIdsFresh(db.templates, TemplateRow(id, t.name), TemplateId, id);
    AppendNamesDistinct(db.templates, TemplateRow(id, t.name), TemplateName);
    db.templates := db.templates + [TemplateRow(id, t.name)];
    db.nextTemplateId := id + 1;
    InsertChildren(db, id, t.exercises);
    r := Ok(id);
  }

  /** The template row with id `id` takes the name `name`; other rows stay. */
  function RenameWhere(rows: seq<TemplateRow>, id: int, name: string): (r: seq<TemplateRow>)
    ensures |r| == |rows|
    ensures forall i :: 0 <= i < |rows| ==> r[i].id == rows[i].id
    ensures forall i :: 0 <= i < |rows| ==> r[i].name == if rows[i].id == id then name else rows[i].name
  {
    seq(|rows|, i requires 0 <= i < |rows| => if rows[i].id == id then TemplateRow(id, name) else rows[i])
  }

  /** Renaming violates the unique index when the row exists and another row has the new name. */
  predicate UpdateClashes(rows: seq<TemplateRow>, id: int, name: string)
  {
    (exists i :: 0 <= i < |rows| && rows[i].id == id)
    && (exists j :: 0 <= j < |rows| && rows[j].id != id && rows[j].name == name)
  }

  lemma RenameKeepsInvariant(rows: seq<TemplateRow>, id: int, name: string, next: int)
    requires IdsFresh(rows, TemplateId, next) && NamesDistinct(rows, TemplateName)
    requires !UpdateClashes(rows, id, name)
    ensures IdsFresh(RenameWhere(rows, id, name), TemplateId, next)
    ensures NamesDistinct(RenameWhere(rows, id, name), TemplateName)
  {
    var r := RenameWhere(rows, id, name);
    forall a, b | 0 <= a < b < |r| ensures r[a].name != r[b].name {
      if rows[a].id == id {
        assert rows[b].id != id;
      } else if rows[b].id == id {
        assert rows[a].id != id;
      }
    }
  }

  /** The ids of the link rows owned by template `templateId`: the `teIds` of update and delete. */
  function OwnedLinkIds(links: seq<TemplateExerciseRow>, templateId: int): set<int>
  {
    IdsWith(links, TemplateLinkOwner, templateId, TemplateLinkId)
  }

  /** Deletes the sets of the template's links, then the links themselves. */
  method DeleteChildren(db: Store, templateId: int)
    requires db.Valid()
    modifies db`templateExercises, db`templateSets
    ensures db.Valid()
    ensures db.templateSets ==
      RejectIn(old(db.templateSets), TemplateSetOwner, OwnedLinkIds(old(db.templateExercises), templateId))
    ensures db.templateExercises == Reject(old(db.templateExercises), TemplateLinkOwner, templateId)
  {
    var ids := OwnedLinkIds(db.templateExercises, templateId);
    var f := RejectInEmbeds(db.templateSets, TemplateSetOwner, ids);
    EmbedsIdsFresh(RejectIn(db.templateSets, TemplateSetOwner, ids), db.templateSets, f,
      TemplateSetId, db.nextTemplateSetId);
    EmbedsOwnersBelow(RejectIn(db.templateSets, TemplateSetOwner, ids), db.templateSets, f,
      TemplateSetOwner, db.nextTemplateExerciseId);
    db.templateSets := RejectIn(db.templateSets, TemplateSetOwner, ids);
    var g := RejectEmbeds(db.templateExercises, TemplateLinkOwner, templateId);
    EmbedsIdsFresh(Reject(db.templateExercises, TemplateLinkOwner, templateId), db.templateExercises, g,
      TemplateLinkId, db.nextTemplateExerciseId);
    EmbedsOwnersBelow(Reject(db.templateExercises, TemplateLinkOwner, templateId), db.templateExercises, g,
      TemplateLinkOwner, db.nextTemplateId);
    db.templateExercises := Reject(db.templateExercises, TemplateLinkOwner, templateId);
  }

  /**
   * `update`: renames the template row, deletes the sets of its links and the
   * links, then inserts the new links and sets. A rename onto another
   * template's name violates the unique index and nothing is written.
   */
  method Update(db: Store, t: Template) returns (r: Result<(), Failure>)
    requires db.Valid() && t.id < db.nextTemplateId
    modifies db`templates, db`templateExercises, db`nextTemplateExerciseId, db`templateSets, db`nextTemplateSetId
    ensures db.Valid()
    ensures r.Err? <==> UpdateClashes(old(db.templates), t.id, t.name)
    ensures r.Err? ==> r.error == DuplicateName
    ensures r.Err? ==>
      && db.templates == old(db.templates) && db.templateExercises == old(db.templateExercises)
      && db.templateSets == old(db.templateSets)
      && db.nextTemplateExerciseId == old(db.nextTemplateExerciseId) && db.nextTemplateSetId == old(db.nextTemplateSetId)
    ensures r.Ok? ==>
      && db.templates == RenameWhere(old(db.templates), t.id, t.name)
      && db.templateExercises == Reject(old(db.templateExercises), TemplateLinkOwner, t.id)
           + LinkRows(t.id, t.exercises, old(db.nextTemplateExerciseId))
      && db.templateSets == RejectIn(old(db.templateSets), TemplateSetOwner, OwnedLinkIds(old(db.templateExercises), t.id))
           + SetRows(t.exercises, old(db.nextTemplateExerciseId), old(db.nextTemplateSetId))
      && db.nextTemplateExerciseId == old(db.nextTemplateExerciseId) + |t.exercises|
      && db.nextTemplateSetId == old(db.nextTemplateSetId) + SetCount(t.exercises)
  {
    if UpdateClashes(db.templates, t.id, t.name) {
      return Err(DuplicateName);
    }
    RenameKeepsInvariant(db.templates, t.id, t.name, db.nextTemplateId);
    ghost var links, sets, nextLink, nextSet := db.templateExercises, db.templateSets, db.nextTemplateExerciseId, db.nextTemplateSetId;
    db.templates := RenameWhere(db.templates, t.id, t.name);
    DeleteChildren(db, t.id);
    ghost var kept, keptSets := db.templateExercises, db.templateSets;
    assert kept == Reject(links, TemplateLinkOwner, t.id);
    assert keptSets == RejectIn(sets, TemplateSetOwner, OwnedLinkIds(links, t.id));
    InsertChildren(db, t.id, t.exercises);
    assert db.templateExercises == kept + LinkRows(t.id, t.exercises, nextLink);
    assert db.templateSets == keptSets + SetRows(t.exercises, nextLink, nextSet);
    r := Ok(());
  }

  /**
   * `delete`: removes the sets of the template's links, then the links, then
   * the template row.
   */
  method Delete(db: Store, templateId: int)
    requires db.Valid()
    modifies db`templates, db`templateExercises, db`templateSets
    ensures db.Valid()
    ensures db.templateSets ==
      RejectIn(old(db.templateSets), TemplateSetOwner, OwnedLinkIds(old(db.templateExercises), templateId))
    ensures db.templateExercises == Reject(old(db.templateExercises), TemplateLinkOwner, templateId)
    ensures db.templates == Reject(old(db.templates), TemplateId, templateId)
  {
    DeleteChildren(db, templateId);
    DeleteRow(db, templateId);
  }

  /** Deletes the row of template `templateId`, leaving its links and sets to the caller. */
  method DeleteRow(db: Store, templateId: int)
    requires db.TemplatesValid()
    modifies db`templates
    ensures db.TemplatesValid()
    ensures db.templates == Reject(old(db.templates), TemplateId, templateId)
  {
    var rest := Reject(db.templates, TemplateId, templateId);
    var f := RejectEmbeds(db.templates, TemplateId, templateId);
    EmbedsIdsFresh(rest, db.templates, f, TemplateId, db.nextTemplateId);
    EmbedsNamesDistinct(rest, db.templates, f, TemplateName);
    db.templates := rest;
  }

  // ---------------------------------------------------------------------------
  // What update and delete leave behind, and what a read returns after a write
  // ---------------------------------------------------------------------------

  /**
   * After update replaces the links of template `id`, the template owns exactly the
   * new links, and every other template owns the links it owned before.
   */
  lemma UpdatedLinks(links: seq<TemplateExerciseRow>, id: int, exercises: seq<TemplateExercise>, base: int, k: int)
    ensures Select(Reject(links, TemplateLinkOwner, id) + LinkRows(id, exercises, base), TemplateLinkOwner, k)
         == if k == id then LinkRows(id, exercises, base) else Select(links, TemplateLinkOwner, k)
  {
    SelectReject(links, TemplateLinkOwner, id, k);
    if k == id {
      RejectMembers(links, TemplateLinkOwner, id);
      SelectOnlyRight(Reject(links, TemplateLinkOwner, id), LinkRows(id, exercises, base), TemplateLinkOwner, k);
    } else {
      SelectNotRight(Reject(links, TemplateLinkOwner, id), LinkRows(id, exercises, base), TemplateLinkOwner, k);
    }
  }

  /** The ids of owned links were issued before `next`. */
  lemma OwnedLinkIdsBelow(links: seq<TemplateExerciseRow>, id: int, next: int)
    requires IdsFresh(links, TemplateLinkId, next)
    ensures forall l :: l in OwnedLinkIds(links, id) ==> 1 <= l < next
  {
  }

  /** The i-th new link owns exactly the set rows built for the i-th exercise, for every i. */
  predicate SetsBuilt(sets: seq<TemplateSetRow>, exercises: seq<TemplateExercise>, linkBase: int, setBase: int)
  {
    forall i :: 0 <= i < |exercises| ==>
      Select(sets, TemplateSetOwner, linkBase + i) == BuiltSets(exercises, i, linkBase, setBase)
  }

  /** Appending the rows built for `exercises` to sets of earlier links leaves each new link exactly its own sets. */
  lemma AppendedSetsBuilt(kept: seq<TemplateSetRow>, exercises: seq<TemplateExercise>, linkBase: int, setBase: int)
    requires OwnersBelow(kept, TemplateSetOwner, linkBase)
    ensures SetsBuilt(kept + SetRows(exercises, linkBase, setBase), exercises, linkBase, setBase)
  {
    forall i | 0 <= i < |exercises|
      ensures Select(kept + SetRows(exercises, linkBase, setBase), TemplateSetOwner, linkBase + i)
           == BuiltSets(exercises, i, linkBase, setBase) {
      SelectConcat(kept, SetRows(exercises, linkBase, setBase), TemplateSetOwner, linkBase + i);
      SelectNone(kept, TemplateSetOwner, linkBase + i);
      SetRowsOwnedBy(exercises, linkBase, setBase, i);
    }
  }

  /** After update replaces the sets of template `id`, no set of an old link of the template remains. */
  lemma UpdatedSetsGone(links: seq<TemplateExerciseRow>, sets: seq<TemplateSetRow>, id: int,
                        exercises: seq<TemplateExercise>, linkBase: int, setBase: int)
    requires IdsFresh(links, TemplateLinkId, linkBase)
    ensures var sets' := RejectIn(sets, TemplateSetOwner, OwnedLinkIds(links, id)) + SetRows(exercises, linkBase, setBase);
      forall j :: 0 <= j < |sets'| ==> sets'[j].templateExerciseId !in OwnedLinkIds(links, id)
  {
    var ids := OwnedLinkIds(links, id);
    var kept: seq<TemplateSetRow> := RejectIn(sets, TemplateSetOwner, ids);
    var added: seq<TemplateSetRow> := SetRows(exercises, linkBase, setBase);
    OwnedLinkIdsBelow(links, id, linkBase);
    RejectInMembers(sets, TemplateSetOwner, ids);
    SetRowsOwners(exercises, linkBase, setBase);
    forall j | 0 <= j < |kept + added| ensures (kept + added)[j].templateExerciseId !in ids {
      if j >= |kept| {
        assert (kept + added)[j] == added[j - |kept|];
      }
    }
  }

  /** After update replaces the sets of template `id`, the i-th new link owns exactly the sets built from the i-th exercise. */
  lemma UpdatedSetsBuilt(links: seq<TemplateExerciseRow>, sets: seq<TemplateSetRow>, id: int,
                         exercises: seq<TemplateExercise>, linkBase: int, setBase: int)
    requires OwnersBelow(sets, TemplateSetOwner, linkBase)
    ensures SetsBuilt(RejectIn(sets, TemplateSetOwner, OwnedLinkIds(links, id)) + SetRows(exercises, linkBase, setBase),
                      exercises, linkBase, setBase)
  {
    var ids := OwnedLinkIds(links, id);
    RejectInMembers(sets, TemplateSetOwner, ids);
    AppendedSetsBuilt(RejectIn(sets, TemplateSetOwner, ids), exercises, linkBase, setBase);
  }

  /** After update replaces the sets of template `id`, every other issued link owns the sets it owned before. */
  lemma UpdatedSetsOthers(links: seq<TemplateExerciseRow>, sets: seq<TemplateSetRow>, id: int,
                          exercises: seq<TemplateExercise>, linkBase: int, setBase: int, l: int)
    requires l < linkBase && l !in OwnedLinkIds(links, id)
    ensures Select(RejectIn(sets, TemplateSetOwner, OwnedLinkIds(links, id)) + SetRows(exercises, linkBase, setBase),
                   TemplateSetOwner, l)
         == Select(sets, TemplateSetOwner, l)
  {
    var ids := OwnedLinkIds(links, id);
    SetRowsOwners(exercises, linkBase, setBase);
    SelectNotRight(RejectIn(sets, TemplateSetOwner, ids), SetRows(exercises, linkBase, setBase), TemplateSetOwner, l);
    SelectRejectIn(sets, TemplateSetOwner, ids, l);
  }

  /**
   * After delete of template `id`: no template row with that id, no link of that
   * template and no set of those links remain; every other template keeps its
   * links and every other link its sets.
   */
  lemma DeletedLeavesNoTrace(templates: seq<TemplateRow>, links: seq<TemplateExerciseRow>,
                             sets: seq<TemplateSetRow>, id: int)
    ensures forall i :: 0 <= i < |Reject(templates, TemplateId, id)| ==> Reject(templates, TemplateId, id)[i].id != id
    ensures Select(Reject(links, TemplateLinkOwner, id), TemplateLinkOwner, id) == []
    ensures forall j :: 0 <= j < |RejectIn(sets, TemplateSetOwner, OwnedLinkIds(links, id))| ==>
      RejectIn(sets, TemplateSetOwner, OwnedLinkIds(links, id))[j].templateExerciseId !in OwnedLinkIds(links, id)
    ensures forall k :: k != id ==>
      Select(Reject(links, TemplateLinkOwner, id), TemplateLinkOwner, k) == Select(links, TemplateLinkOwner, k)
    ensures forall l :: l !in OwnedLinkIds(links, id) ==>
      Select(RejectIn(sets, TemplateSetOwner, OwnedLinkIds(links, id)), TemplateSetOwner, l)
        == Select(sets, TemplateSetOwner, l)
  {
    RejectMembers(templates, TemplateId, id);
    RejectInMembers(sets, TemplateSetOwner, OwnedLinkIds(links, id));
    forall k {
      SelectReject(links, TemplateLinkOwner, id, k);
    }
    forall l {
      SelectRejectIn(sets, TemplateSetOwner, OwnedLinkIds(links, id), l);
    }
  }

  /** The set records a read returns for sets stored by `SetRowsOf`. */
  function StoredSets(sets: seq<TemplateSet>, linkId: int, base: int): (r: seq<TemplateSet>)
    ensures |r| == |sets|
  {
    seq(|sets|, k requires 0 <= k < |sets| => TemplateSet(base + k, linkId, sets[k].setNumber, sets[k].reps))
  }

  /** The record a read returns for the i-th exercise of a template stored by insert or update. */
  function StoredExercise(exercises: seq<TemplateExercise>, i: int, templateId: int, linkBase: int, setBase: int)
    : TemplateExercise
    requires 0 <= i < |exercises|
  {
    TemplateExercise(linkBase + i, templateId, exercises[i].exercise, exercises[i].order,
      StoredSets(exercises[i].sets, linkBase + i, setBase + SetCount(exercises[..i])))
  }

  /** The exercise records a read returns for a template stored by insert or update. */
  function StoredExercises(exercises: seq<TemplateExercise>, templateId: int, linkBase: int, setBase: int)
    : (r: seq<TemplateExercise>)
    ensures |r| == |exercises|
  {
    seq(|exercises|, i requires 0 <= i < |exercises| => StoredExercise(exercises, i, templateId, linkBase, setBase))
  }

  /** Positions ascend, sets ascend by number, and every exercise is the stored record with its id. */
  predicate WellFormedInput(exercises: seq<TemplateExercise>, records: seq<Exercise>)
  {
    && (forall a, b :: 0 <= a < b < |exercises| ==> exercises[a].order <= exercises[b].order)
    && (forall i :: 0 <= i < |exercises| ==> FindExercise(records, exercises[i].exercise.id) == Some(exercises[i].exercise))
    && (forall i, a, b :: 0 <= i < |exercises| && 0 <= a < b < |exercises[i].sets| ==>
          exercises[i].sets[a].setNumber <= exercises[i].sets[b].setNumber)
  }

  lemma StoredSetRecords(built: seq<TemplateSet>, linkId: int, base: int)
    ensures SetRecords(SetRowsOf(built, linkId, base)) == StoredSets(built, linkId, base)
  {
  }

  lemma ReadSets(sets: seq<TemplateSetRow>, built: seq<TemplateSet>, linkId: int, base: int)
    requires Select(sets, TemplateSetOwner, linkId) == SetRowsOf(built, linkId, base)
    requires forall a, b :: 0 <= a < b < |built| ==> built[a].setNumber <= built[b].setNumber
    ensures GetTemplateSets(sets, linkId) == StoredSets(built, linkId, base)
  {
    var rows := SetRowsOf(built, linkId, base);
    assert SortedBy(rows, TemplateSetNumber);
    SortBySorted(rows, TemplateSetNumber);
    StoredSetRecords(built, linkId, base);
  }

  /** Reading one link row a write built gives the input exercise with its stored ids. */
  lemma ReadLink(sets: seq<TemplateSetRow>, records: seq<Exercise>, link: TemplateExerciseRow,
                 te: TemplateExercise, templateId: int, linkId: int, base: int)
    requires link == TemplateExerciseRow(linkId, templateId, te.exercise.id, te.order)
    requires FindExercise(records, te.exercise.id) == Some(te.exercise)
    requires forall a, b :: 0 <= a < b < |te.sets| ==> te.sets[a].setNumber <= te.sets[b].setNumber
    requires Select(sets, TemplateSetOwner, linkId) == SetRowsOf(te.sets, linkId, base)
    ensures Resolves(records, link)
    ensures LinkRecord(link, sets, records)
         == TemplateExercise(linkId, templateId, te.exercise, te.order, StoredSets(te.sets, linkId, base))
  {
    ReadSets(sets, te.sets, linkId, base);
  }

  /** Reading the i-th link row a write built from well-formed exercises gives the i-th stored record. */
  lemma ReadLinkAt(sets: seq<TemplateSetRow>, records: seq<Exercise>,
                   id: int, exercises: seq<TemplateExercise>, linkBase: int, setBase: int, i: int)
    requires WellFormedInput(exercises, records)
    requires SetsBuilt(sets, exercises, linkBase, setBase)
    requires 0 <= i < |exercises|
    ensures Resolves(records, LinkRows(id, exercises, linkBase)[i])
    ensures LinkRecord(LinkRows(id, exercises, linkBase)[i], sets, records)
         == StoredExercise(exercises, i, id, linkBase, setBase)
  {
    var te := exercises[i];
    var base := setBase + SetCount(exercises[..i]);
    assert Select(sets, TemplateSetOwner, linkBase + i) == BuiltSets(exercises, i, linkBase, setBase);
    assert BuiltSets(exercises, i, linkBase, setBase) == SetRowsOf(te.sets, linkBase + i, base);
    assert forall a, b :: 0 <= a < b < |te.sets| ==> te.sets[a].setNumber <= te.sets[b].setNumber;
    ReadLink(sets, records, LinkRows(id, exercises, linkBase)[i], te, id, linkBase + i, base);
  }

  /** Assembling the link rows a write built from well-formed exercises gives the stored records. */
  lemma AssembleBuilt(sets: seq<TemplateSetRow>, records: seq<Exercise>,
                      id: int, exercises: seq<TemplateExercise>, linkBase: int, setBase: int)
    requires WellFormedInput(exercises, records)
    requires SetsBuilt(sets, exercises, linkBase, setBase)
    ensures AssembleLinks(LinkRows(id, exercises, linkBase), sets, records)
         == Ok(StoredExercises(exercises, id, linkBase, setBase))
  {
    var built := LinkRows(id, exercises, linkBase);
    var want := StoredExercises(exercises, id, linkBase, setBase);
    forall i | 0 <= i < |exercises|
      ensures Resolves(records, built[i]) && LinkRecord(built[i], sets, records) == want[i] {
      ReadLinkAt(sets, records, id, exercises, linkBase, setBase, i);
    }
    var r := AssembleLinks(built, sets, records);
    assert r.Ok?;
    assert r.value == want;
  }

  /**
   * Reading a template whose link and set rows are exactly those a write built
   * from `exercises` returns those exercises with their stored ids filled in.
   */
  lemma ReadBack(links: seq<TemplateExerciseRow>, sets: seq<TemplateSetRow>, records: seq<Exercise>,
                 id: int, exercises: seq<TemplateExercise>, linkBase: int, setBase: int)
    requires WellFormedInput(exercises, records)
    requires Select(links, TemplateLinkOwner, id) == LinkRows(id, exercises, linkBase)
    requires SetsBuilt(sets, exercises, linkBase, setBase)
    ensures GetTemplateExercises(links, sets, records, id) == Ok(StoredExercises(exercises, id, linkBase, setBase))
  {
    var built := LinkRows(id, exercises, linkBase);
    assert SortedBy(built, TemplateLinkOrder);
    SortBySorted(built, TemplateLinkOrder);
    AssembleBuilt(sets, records, id, exercises, linkBase, setBase);
  }

  /** After a successful insert, reading the new template returns the input exercises with their stored ids. */
  lemma InsertThenRead(links: seq<TemplateExerciseRow>, sets: seq<TemplateSetRow>, records: seq<Exercise>,
                       newId: int, exercises: seq<TemplateExercise>, linkBase: int, setBase: int)
    requires OwnersBelow(links, TemplateLinkOwner, newId) && OwnersBelow(sets, TemplateSetOwner, linkBase)
    requires WellFormedInput(exercises, records)
    ensures GetTemplateExercises(links + LinkRows(newId, exercises, linkBase),
                                 sets + SetRows(exercises, linkBase, setBase), records, newId)
         == Ok(StoredExercises(exercises, newId, linkBase, setBase))
  {
    SelectOnlyRight(links, LinkRows(newId, exercises, linkBase), TemplateLinkOwner, newId);
    AppendedSetsBuilt(sets, exercises, linkBase, setBase);
    ReadBack(links + LinkRows(newId, exercises, linkBase), sets + SetRows(exercises, linkBase, setBase),
      records, newId, exercises, linkBase, setBase);
  }

  /** After a successful update, reading the template returns the new exercises with their stored ids. */
  lemma UpdateThenRead(links: seq<TemplateExerciseRow>, sets: seq<TemplateSetRow>, records: seq<Exercise>,
                       id: int, exercises: seq<TemplateExercise>, linkBase: int, setBase: int)
    requires OwnersBelow(sets, TemplateSetOwner, linkBase)
    requires WellFormedInput(exercises, records)
    ensures GetTemplateExercises(Reject(links, TemplateLinkOwner, id) + LinkRows(id, exercises, linkBase),
                                 RejectIn(sets, TemplateSetOwner, OwnedLinkIds(links, id))
                                   + SetRows(exercises, linkBase, setBase), records, id)
         == Ok(StoredExercises(exercises, id, linkBase, setBase))
  {
    UpdatedLinks(links, id, exercises, linkBase, id);
    UpdatedSetsBuilt(links, sets, id, exercises, linkBase, setBase);
    ReadBack(Reject(links, TemplateLinkOwner, id) + LinkRows(id, exercises, linkBase),
      RejectIn(sets, TemplateSetOwner, OwnedLinkIds(links, id)) + SetRows(exercises, linkBase, setBase),
      records, id, exercises, linkBase, setBase);
  }
}
