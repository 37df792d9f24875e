/** The migration of stored memories to another embedding model: batched, interruptible, and with legacy
    columns from which it can be rolled back. */
module EmbeddingMigration {
  import opened Text

  datatype Id = Id(name: string)

  datatype Vector = Vector(values: seq<real>)

  /** One row of `memories`; an absent value is a NULL. */
  datatype Row = Row(text: string, archived: bool, current: Stored, legacy: Stored)

  /** An embedding and the model it was made with: the columns in use, or the legacy columns. */
  datatype Stored = Stored(embedding: Option<Vector>, model: Option<string>)

  type Rows = map<Id, Row>

  datatype Params = Params(fromModel: string, toModel: string, backup: bool, dryRun: bool, batchSize: int)

  /** The rows whose embedding, or whose update, fails this time. */
  datatype Failing = Failing(embeds: set<Id>, updates: set<Id>)

  const NO_FAILURES := Failing({}, {})

  datatype Memory = Memory(id: Id, content: string, model: Option<string>)

  datatype Failure = EmbedFailed(id: Id) | UpdateFailed(id: Id)

  datatype Counts = Counts(migrated: nat, skipped: nat, errors: seq<Failure>)

  datatype Progress = Progress(rows: Rows, counts: Counts)

  // ---------------------------------------------------------------- the statements

  function BackedUp(row: Row): Row {
    if row.legacy.embedding.None? && row.current.embedding.Some? then row.(legacy := row.current) else row
  }

  function Backup(rows: Rows): Rows {
    map id | id in rows :: BackedUp(rows[id])
  }

  predicate IsSelected(row: Row, fromModel: string) {
    !row.archived && (fromModel == "" || row.current.model == Some(fromModel))
  }

  /** The selected rows, in the order of their creation. */
  function Select(order: seq<Id>, rows: Rows, fromModel: string): seq<Memory> {
    if order == [] then []
    else
      var id, before := order[|order| - 1], Select(order[..|order| - 1], rows, fromModel);
      if id in rows && IsSelected(rows[id], fromModel) then before + [Memory(id, rows[id].text, rows[id].current.model)]
      else before
  }

  function Update(rows: Rows, id: Id, embedding: Vector, model: string): Rows {
    if id in rows then rows[id := rows[id].(current := Stored(Some(embedding), Some(model)))] else rows
  }

  /** The published rollback statement. */
  function RolledBack(row: Row): Row {
    if row.legacy.embedding.Some? then row.(current := row.legacy) else row
  }

  // ---------------------------------------------------------------- the loop

  predicate IsOnTarget(memory: Memory, toModel: string) {
    memory.model == Some(toModel)
  }

  function MigrateOne(p: Progress, memory: Memory, toModel: string, failing: Failing,
                      embed: string -> Vector): Progress {
    if IsOnTarget(memory, toModel) then p.(counts := p.counts.(skipped := p.counts.skipped + 1))
    else if memory.id in failing.embeds then
      p.(counts := p.counts.(errors := p.counts.errors + [EmbedFailed(memory.id)]))
    else if memory.id in failing.updates then
      p.(counts := p.counts.(errors := p.counts.errors + [UpdateFailed(memory.id)]))
    else Progress(Update(p.rows, memory.id, embed(memory.content), toModel),
                  p.counts.(migrated := p.counts.migrated + 1))
  }

  function MigrateAll(rows: Rows, memories: seq<Memory>, toModel: string, failing: Failing,
                      embed: string -> Vector): Progress {
    if memories == [] then Progress(rows, Counts(0, 0, []))
    else
      MigrateOne(MigrateAll(rows, memories[..|memories| - 1], toModel, failing, embed), memories[|memories| - 1],
                 toModel, failing, embed)
  }

  datatype Report = Report(total: nat, migrated: nat, skipped: nat, errorCount: nat, errors: seq<Failure>)

  const MAX_ERRORS := 50

  function Prepared(rows: Rows, params: Params): Rows {
    if params.backup && !params.dryRun then Backup(rows) else rows
  }

  class MemoryStore {
    var rows: Rows
    const order: seq<Id>

    constructor (rows: Rows, order: seq<Id>)
      ensures this.rows == rows && this.order == order
    {
      this.rows, this.order := rows, order;
    }

    /** One row of a batch. */
    method MigrateRow(memory: Memory, toModel: string, failing: Failing, embed: string -> Vector, before: Counts)
      returns (counts: Counts)
      modifies this`rows
      ensures Progress(rows, counts) == MigrateOne(Progress(old(rows), before), memory, toModel, failing, embed)
    {
      if memory.model.Some? && memory.model.value == toModel {
        return before.(skipped := before.skipped + 1);
      }
      if memory.id in failing.embeds {
        return before.(errors := before.errors + [EmbedFailed(memory.id)]);
      }
      if memory.id in failing.updates {
        return before.(errors := before.errors + [UpdateFailed(memory.id)]);
      }
      rows := Update(rows, memory.id, embed(memory.content), toModel);
      return before.(migrated := before.migrated + 1);
    }

    /** One batch: the rows from `i` up to `end`. */
    method MigrateBatch(memories: seq<Memory>, i: nat, end: nat, toModel: string, failing: Failing,
                        embed: string -> Vector, ghost start: Rows, before: Counts) returns (counts: Counts)
      requires i <= end <= |memories|
      requires Progress(rows, before) == MigrateAll(start, memories[..i], toModel, failing, embed)
      modifies this`rows
      ensures Progress(rows, counts) == MigrateAll(start, memories[..end], toModel, failing, embed)
    {
      counts := before;
      for j := i to end
        invariant Progress(rows, counts) == MigrateAll(start, memories[..j], toModel, failing, embed)
      {
        assert memories[..j + 1][..j] == memories[..j];
        counts := MigrateRow(memories[j], toModel, failing, embed, counts);
      }
    }

    /** `handleMemoryMigrateEmbeddings`: absent if no target model is given, and otherwise the report. The
        batch size does not show in the outcome. */
    method MigrateEmbeddings(params: Params, failing: Failing, embed: string -> Vector) returns (report: Option<Report>)
      modifies this`rows
      ensures params.toModel == "" ==> report == None && rows == old(rows)
      ensures params.toModel != "" ==>
                var ready := Prepared(old(rows), params);
                var memories := Select(order, ready, params.fromModel);
                var done := MigrateAll(ready, memories, params.toModel, failing, embed);
                if params.dryRun then rows == old(rows) && report == Some(Report(|memories|, 0, |memories|, 0, []))
                else
                  && rows == done.rows
                  && report == Some(Report(|memories|, done.counts.migrated, done.counts.skipped,
                                           |done.counts.errors|, Capped(done.counts.errors)))
    {
      if params.toModel == "" {
        return None;
      }
      var batchSize := if params.batchSize <= 0 then 10 else params.batchSize;
      if params.backup && !params.dryRun {
        rows := Backup(rows);
      }
      var memories := Select(order, rows, params.fromModel);
      var total := |memories|;
      if total == 0 {
        return Some(Report(0, 0, 0, 0, []));
      }
      if params.dryRun {
        return Some(Report(total, 0, total, 0, []));
      }
      ghost var start := rows;
      var counts := Counts(0, 0, []);
      var i := 0;
      while i < total
        invariant 0 <= i
        invariant Progress(rows, counts)
                  == MigrateAll(start, memories[..if i < total then i else total], params.toModel, failing, embed)
        decreases total - i
      {
        var end := i + batchSize;
        if end > total {
          end := total;
        }
        counts := MigrateBatch(memories, i, end, params.toModel, failing, embed, start, counts);
        i := i + batchSize;
      }
      assert memories[..total] == memories;
      return Some(Report(total, counts.migrated, counts.skipped, |counts.errors|, Capped(counts.errors)));
    }
  }

  function Capped(errors: seq<Failure>): seq<Failure> {
    if |errors| > MAX_ERRORS then errors[..MAX_ERRORS] else errors
  }

  // ---------------------------------------------------------------- the counts

  /** Every selected row is counted exactly once. */
  lemma {:induction false} CountsAddUp(rows: Rows, memories: seq<Memory>, toModel: string, failing: Failing,
                                       embed: string -> Vector)
    ensures var c := MigrateAll(rows, memories, toModel, failing, embed).counts;
            c.migrated + c.skipped + |c.errors| == |memories|
  {
    if memories != [] {
      CountsAddUp(rows, memories[..|memories| - 1], toModel, failing, embed);
    }
  }

  ghost function SelectedRows(order: seq<Id>, rows: Rows, fromModel: string): set<Id> {
    set id | id in order && id in rows && IsSelected(rows[id], fromModel)
  }

  lemma {:induction false} SelectedRowsCounted(order: seq<Id>, rows: Rows, fromModel: string)
    requires Distinct(order)
    ensures |Select(order, rows, fromModel)| == |SelectedRows(order, rows, fromModel)|
  {
    if order != [] {
      var front, id := order[..|order| - 1], order[|order| - 1];
      SelectedRowsCounted(front, rows, fromModel);
      assert order == front + [id] && id !in front;
      OneMoreElement(SelectedRows(front, rows, fromModel), SelectedRows(order, rows, fromModel), id,
                 id in rows && IsSelected(rows[id], fromModel));
    }
  }

  /** The total is the number of rows that are not archived and, if a source model is given, were made with
      that model. */
  lemma TotalCountsRows(order: seq<Id>, rows: Rows, fromModel: string)
    requires Distinct(order)
    ensures |Select(order, rows, fromModel)| ==
            |set id | id in order && id in rows && !rows[id].archived
                      && (fromModel == "" || rows[id].current.model == Some(fromModel))|
  {
    SelectedRowsCounted(order, rows, fromModel);
    assert SelectedRows(order, rows, fromModel) ==
           set id | id in order && id in rows && !rows[id].archived
                    && (fromModel == "" || rows[id].current.model == Some(fromModel));
  }

  ghost function RowsOnTarget(order: seq<Id>, rows: Rows, params: Params): set<Id> {
    set id | id in SelectedRows(order, rows, params.fromModel) && rows[id].current.model == Some(params.toModel)
  }

  ghost function RowsFailing(order: seq<Id>, rows: Rows, params: Params, failing: Failing): set<Id> {
    set id | id in SelectedRows(order, rows, params.fromModel) && rows[id].current.model != Some(params.toModel)
             && (id in failing.embeds || id in failing.updates)
  }

  /** The failure of a row that is about to be migrated, if it fails. */
  function FailureOf(id: Id, rows: Rows, params: Params, failing: Failing): seq<Failure> {
    if id !in rows || !IsSelected(rows[id], params.fromModel) || rows[id].current.model == Some(params.toModel) then []
    else if id in failing.embeds then [EmbedFailed(id)]
    else if id in failing.updates then [UpdateFailed(id)]
    else []
  }

  lemma CountsOfLast(front: seq<Id>, id: Id, rows: Rows, params: Params, failing: Failing, embed: string -> Vector)
    ensures var shorter := Select(front, rows, params.fromModel);
            var longer := Select(front + [id], rows, params.fromModel);
            var before := MigrateAll(rows, shorter, params.toModel, failing, embed).counts;
            var after := MigrateAll(rows, longer, params.toModel, failing, embed).counts;
            var selected := id in rows && IsSelected(rows[id], params.fromModel);
            && after.errors == before.errors + FailureOf(id, rows, params, failing)
            && after.skipped == before.skipped
               + (if selected && rows[id].current.model == Some(params.toModel) then 1 else 0)
  {
    var memories := Select(front, rows, params.fromModel);
    assert (front + [id])[..|front|] == front;
    if id in rows && IsSelected(rows[id], params.fromModel) {
      var memory := Memory(id, rows[id].text, rows[id].current.model);
      assert (memories + [memory])[..|memories|] == memories;
    }
  }

  /** The selected rows that are on the target model are skipped, those that fail are counted as errors, and
      all others are counted as migrated. */
  lemma {:induction false} CountsByRow(order: seq<Id>, rows: Rows, params: Params, failing: Failing,
                                       embed: string -> Vector)
    requires Distinct(order)
    ensures var c := MigrateAll(rows, Select(order, rows, params.fromModel), params.toModel, failing, embed).counts;
            && c.skipped == |RowsOnTarget(order, rows, params)|
            && |c.errors| == |RowsFailing(order, rows, params, failing)|
            && c.migrated + c.skipped + |c.errors| == |SelectedRows(order, rows, params.fromModel)|
  {
    CountsAddUp(rows, Select(order, rows, params.fromModel), params.toModel, failing, embed);
    SelectedRowsCounted(order, rows, params.fromModel);
    if order != [] {
      var front, id := order[..|order| - 1], order[|order| - 1];
      CountsByRow(front, rows, params, failing, embed);
      assert order == front + [id] && id !in front;
      var selected := id in rows && IsSelected(rows[id], params.fromModel);
      OneMoreElement(RowsOnTarget(front, rows, params), RowsOnTarget(order, rows, params), id,
                 selected && rows[id].current.model == Some(params.toModel));
      OneMoreElement(RowsFailing(front, rows, params, failing), RowsFailing(order, rows, params, failing), id,
                 selected && rows[id].current.model != Some(params.toModel)
                 && (id in failing.embeds || id in failing.updates));
      CountsOfLast(front, id, rows, params, failing, embed);
    }
  }

  /** Row `failure.id` is selected and not on the target model, and fails in this way: a row whose embedding fails is
      not updated. */
  predicate Fails(failure: Failure, rows: Rows, params: Params, failing: Failing) {
    && failure.id in rows && IsSelected(rows[failure.id], params.fromModel)
    && rows[failure.id].current.model != Some(params.toModel)
    && match failure
       case EmbedFailed(id) => id in failing.embeds
       case UpdateFailed(id) => id !in failing.embeds && id in failing.updates
  }

  lemma FailsAlone(failure: Failure, id: Id, rows: Rows, params: Params, failing: Failing)
    ensures failure in FailureOf(id, rows, params, failing)
            <==> failure.id == id && Fails(failure, rows, params, failing)
  {
  }

  /** The failures name exactly the rows that failed, and how. */
  lemma {:induction false} ErrorsNameTheirRows(order: seq<Id>, rows: Rows, params: Params, failing: Failing,
                                               embed: string -> Vector, failure: Failure)
    ensures var c := MigrateAll(rows, Select(order, rows, params.fromModel), params.toModel, failing, embed).counts;
            failure in c.errors <==> failure.id in order && Fails(failure, rows, params, failing)
  {
    if order != [] {
      var front, id := order[..|order| - 1], order[|order| - 1];
      ErrorsNameTheirRows(front, rows, params, failing, embed, failure);
      CountsOfLast(front, id, rows, params, failing, embed);
      FailsAlone(failure, id, rows, params, failing);
      assert order == front + [id];
    }
  }

  /** The report holds the first fifty failures. */
  lemma ReportedErrors(errors: seq<Failure>)
    ensures Capped(errors) <= errors && |Capped(errors)| == if |errors| > 50 then 50 else |errors|
  {
  }

  // ---------------------------------------------------------------- what happens to one row

  predicate Changes(memory: Memory, toModel: string, failing: Failing) {
    !IsOnTarget(memory, toModel) && memory.id !in failing.embeds && memory.id !in failing.updates
  }

  /** What a migration without failures makes of a row. */
  function Migrated(row: Row, params: Params, embed: string -> Vector): Row {
    if IsSelected(row, params.fromModel) && row.current.model != Some(params.toModel) then
      row.(current := Stored(Some(embed(row.text)), Some(params.toModel)))
    else row
  }

  lemma {:induction false} SelectStaysIn(order: seq<Id>, rows: Rows, fromModel: string)
    ensures forall m :: m in Select(order, rows, fromModel) ==>
              m.id in order && m.id in rows && IsSelected(rows[m.id], fromModel)
              && m == Memory(m.id, rows[m.id].text, rows[m.id].current.model)
  {
    if order != [] {
      SelectStaysIn(order[..|order| - 1], rows, fromModel);
      assert order == order[..|order| - 1] + [order[|order| - 1]];
    }
  }

  lemma {:induction false} NotReached(rows: Rows, memories: seq<Memory>, toModel: string, failing: Failing,
                                      embed: string -> Vector, id: Id)
    requires forall k :: 0 <= k < |memories| && Changes(memories[k], toModel, failing) ==> memories[k].id != id
    ensures Get(MigrateAll(rows, memories, toModel, failing, embed).rows, id) == Get(rows, id)
  {
    if memories != [] {
      NotReached(rows, memories[..|memories| - 1], toModel, failing, embed, id);
    }
  }

  lemma {:induction false} Reached(rows: Rows, memories: seq<Memory>, toModel: string, failing: Failing,
                                   embed: string -> Vector, k: nat)
    requires k < |memories| && Changes(memories[k], toModel, failing) && memories[k].id in rows
    requires OnceEach(memories)
    ensures Get(MigrateAll(rows, memories, toModel, failing, embed).rows, memories[k].id)
         == Some(rows[memories[k].id].(current := Stored(Some(embed(memories[k].content)), Some(toModel))))
  {
    var front := memories[..|memories| - 1];
    if k == |memories| - 1 {
      NotReached(rows, front, toModel, failing, embed, memories[k].id);
    } else {
      Reached(rows, front, toModel, failing, embed, k);
    }
  }

  predicate OnceEach(memories: seq<Memory>) {
    forall i, j :: 0 <= i < |memories| && 0 <= j < |memories| && i != j ==> memories[i].id != memories[j].id
  }

  lemma {:induction false} SelectedOnce(order: seq<Id>, rows: Rows, fromModel: string)
    requires Distinct(order)
    ensures OnceEach(Select(order, rows, fromModel))
  {
    if order != [] {
      var front, before := order[..|order| - 1], Select(order[..|order| - 1], rows, fromModel);
      SelectedOnce(front, rows, fromModel);
      SelectStaysIn(front, rows, fromModel);
      assert order[|order| - 1] !in front;
      forall i | 0 <= i < |before|
        ensures before[i].id != order[|order| - 1]
      {
        assert before[i] in before;
      }
    }
  }

  lemma {:induction false} SelectedIfWanted(order: seq<Id>, rows: Rows, fromModel: string, id: Id)
    requires id in order && id in rows && IsSelected(rows[id], fromModel)
    ensures Memory(id, rows[id].text, rows[id].current.model) in Select(order, rows, fromModel)
  {
    if order[|order| - 1] != id {
      SelectedIfWanted(order[..|order| - 1], rows, fromModel, id);
    }
  }

  /** A run that was interrupted after `n` of the selected rows. */
  function Interrupted(rows: Rows, order: seq<Id>, params: Params, failing: Failing, n: nat,
                       embed: string -> Vector): Rows {
    var memories := Select(order, rows, params.fromModel);
    MigrateAll(rows, if n < |memories| then memories[..n] else memories, params.toModel, failing, embed).rows
  }

  /** However far it gets and whatever fails, a run leaves each row as it was or migrates it. */
  lemma EachRowMigratedOrLeft(rows: Rows, order: seq<Id>, params: Params, failing: Failing, n: nat,
                              embed: string -> Vector, id: Id)
    requires Distinct(order) && id in rows
    ensures var after := Interrupted(rows, order, params, failing, n, embed);
            id in after && (after[id] == rows[id] || after[id] == Migrated(rows[id], params, embed))
  {
    var memories := Select(order, rows, params.fromModel);
    var reached := if n < |memories| then memories[..n] else memories;
    SelectedOnce(order, rows, params.fromModel);
    SelectStaysIn(order, rows, params.fromModel);
    if k :| 0 <= k < |reached| && Changes(reached[k], params.toModel, failing) && reached[k].id == id {
      assert reached[k] in memories;
      assert forall j :: 0 <= j < |reached| ==> reached[j] == memories[j];
      Reached(rows, reached, params.toModel, failing, embed, k);
    } else {
      NotReached(rows, reached, params.toModel, failing, embed, id);
      assert Get(Interrupted(rows, order, params, failing, n, embed), id) == Get(rows, id);
    }
  }

  /** A run that is not interrupted migrates every row that does not fail. */
  lemma CompleteRunByRow(rows: Rows, order: seq<Id>, params: Params, failing: Failing, embed: string -> Vector, id: Id)
    requires Distinct(order) && id in rows && id in order
    ensures var selected := Select(order, rows, params.fromModel);
            Get(MigrateAll(rows, selected, params.toModel, failing, embed).rows, id)
            == Some(if id in failing.embeds || id in failing.updates then rows[id]
                    else Migrated(rows[id], params, embed))
  {
    var memories := Select(order, rows, params.fromModel);
    SelectedOnce(order, rows, params.fromModel);
    SelectStaysIn(order, rows, params.fromModel);
    var memory := Memory(id, rows[id].text, rows[id].current.model);
    if IsSelected(rows[id], params.fromModel) && Changes(memory, params.toModel, failing) {
      SelectedIfWanted(order, rows, params.fromModel, id);
      var k :| 0 <= k < |memories| && memories[k] == memory;
      Reached(rows, memories, params.toModel, failing, embed, k);
    } else {
      NotReached(rows, memories, params.toModel, failing, embed, id);
    }
  }

  /** A run that is not interrupted and in which nothing fails migrates every row. */
  lemma CompleteRunMigratesEachRow(rows: Rows, order: seq<Id>, params: Params, embed: string -> Vector, id: Id)
    requires Distinct(order) && id in rows && id in order
    ensures var selected := Select(order, rows, params.fromModel);
            var after := MigrateAll(rows, selected, params.toModel, NO_FAILURES, embed).rows;
            id in after && after[id] == Migrated(rows[id], params, embed)
  {
    CompleteRunByRow(rows, order, params, NO_FAILURES, embed, id);
  }

  /** On the columns: a run, complete or interrupted and whatever fails, changes no row that is archived, that
      was made with another model than the source model, if one is given, or that is on the target model. */
  lemma OtherRowsStay(rows: Rows, order: seq<Id>, params: Params, failing: Failing, n: nat, embed: string -> Vector,
                      id: Id)
    requires Distinct(order) && id in rows
    requires || rows[id].archived
             || (params.fromModel != "" && rows[id].current.model != Some(params.fromModel))
             || rows[id].current.model == Some(params.toModel)
    ensures Get(Interrupted(rows, order, params, failing, n, embed), id) == Some(rows[id])
  {
    EachRowMigratedOrLeft(rows, order, params, failing, n, embed, id);
  }

  /** A complete run gives every other row that does not fail the target model and the embedding of its text, and
      keeps its text and its legacy columns; a row that fails stays as it is. */
  lemma OtherRowsAreMigrated(rows: Rows, order: seq<Id>, params: Params, failing: Failing, embed: string -> Vector,
                             id: Id)
    requires Distinct(order) && id in rows && id in order && !rows[id].archived
    requires params.fromModel != "" ==> rows[id].current.model == Some(params.fromModel)
    requires rows[id].current.model != Some(params.toModel)
    ensures var selected := Select(order, rows, params.fromModel);
            var new' := Stored(Some(embed(rows[id].text)), Some(params.toModel));
            Get(MigrateAll(rows, selected, params.toModel, failing, embed).rows, id)
            == Some(if id in failing.embeds || id in failing.updates then rows[id]
                    else Row(rows[id].text, false, new', rows[id].legacy))
  {
    CompleteRunByRow(rows, order, params, failing, embed, id);
  }

  /** The backup statements copy the columns in use to the legacy columns where these are empty, and change
      nothing else; a run without backup or a dry run leaves them out. */
  lemma BackupByColumns(rows: Rows, params: Params, id: Id)
    ensures id in Prepared(rows, params) <==> id in rows
    ensures id in rows ==>
              var row := Prepared(rows, params)[id];
              && row.text == rows[id].text && row.archived == rows[id].archived && row.current == rows[id].current
              && row.legacy == if params.backup && !params.dryRun && rows[id].legacy.embedding.None?
                                  && rows[id].current.embedding.Some? then rows[id].current
                               else rows[id].legacy
  {
  }

  // ---------------------------------------------------------------- resuming

  /** Running again with the same parameters, without failures this time, after a run that stopped anywhere:
      the embeddings and their models are those of one uninterrupted run. The legacy columns are too, unless
      the row had no embedding at first, had been reached by the first run, and is backed up by the second. */
  lemma ResumeIsOneRun(rows: Rows, order: seq<Id>, params: Params, failing: Failing, n: nat, embed: string -> Vector,
                       id: Id)
    requires Distinct(order) && id in rows && id in order && !params.dryRun
    ensures var first := Interrupted(Prepared(rows, params), order, params, failing, n, embed);
            var ready := Prepared(first, params);
            var left := Select(order, ready, params.fromModel);
            var resumed := MigrateAll(ready, left, params.toModel, NO_FAILURES, embed).rows;
            var start := Prepared(rows, params);
            var all := Select(order, start, params.fromModel);
            var whole := MigrateAll(start, all, params.toModel, NO_FAILURES, embed).rows;
            && id in first && id in resumed && id in whole
            && resumed[id].current == whole[id].current
            && (resumed[id] == whole[id] <==>
                !(params.backup && rows[id].current.embedding.None? && rows[id].legacy.embedding.None?
                  && first[id].current.embedding.Some?))
  {
    var start := Prepared(rows, params);
    var first := Interrupted(start, order, params, failing, n, embed);
    EachRowMigratedOrLeft(start, order, params, failing, n, embed, id);
    CompleteRunMigratesEachRow(Prepared(first, params), order, params, embed, id);
    CompleteRunMigratesEachRow(start, order, params, embed, id);
  }

  // ---------------------------------------------------------------- rolling back

  /** One run of the migration, of which only the first `n` rows were reached. */
  datatype Attempt = Attempt(params: Params, failing: Failing, n: nat)

  function AfterAttempt(rows: Rows, order: seq<Id>, a: Attempt, embed: string -> Vector): Rows {
    if a.params.toModel == "" || a.params.dryRun then rows
    else Interrupted(Prepared(rows, a.params), order, a.params, a.failing, a.n, embed)
  }

  function AfterAttempts(rows: Rows, order: seq<Id>, attempts: seq<Attempt>, embed: string -> Vector): Rows
    decreases |attempts|
  {
    if attempts == [] then rows
    else AfterAttempts(AfterAttempt(rows, order, attempts[0], embed), order, attempts[1..], embed)
  }

  /** Whether this attempt runs the backup statements. */
  predicate BacksUp(a: Attempt) {
    a.params.toModel != "" && !a.params.dryRun && a.params.backup
  }

  /** What the row has in use just before the first attempt that backs it up, or at the end if none does.
      A backup passes over a row without an embedding. */
  function BackedUpValue(rows: Rows, order: seq<Id>, attempts: seq<Attempt>, embed: string -> Vector, id: Id): Stored
    requires Distinct(order) && id in rows
    decreases |attempts|
  {
    if attempts == [] || (BacksUp(attempts[0]) && rows[id].current.embedding.Some?) then rows[id].current
    else
      RowsStay(rows, order, attempts[0], embed, id);
      BackedUpValue(AfterAttempt(rows, order, attempts[0], embed), order, attempts[1..], embed, id)
  }

  lemma RowsStay(rows: Rows, order: seq<Id>, a: Attempt, embed: string -> Vector, id: Id)
    requires Distinct(order) && id in rows
    ensures id in AfterAttempt(rows, order, a, embed)
  {
    if a.params.toModel != "" && !a.params.dryRun {
      EachRowMigratedOrLeft(Prepared(rows, a.params), order, a.params, a.failing, a.n, embed, id);
    }
  }

  /** What one attempt does to a row: nothing, or a migration; its legacy columns are filled by the first
      backup that finds an embedding and stay for good. */
  lemma LegacyAfterAttempt(rows: Rows, order: seq<Id>, a: Attempt, embed: string -> Vector, id: Id)
    requires Distinct(order) && id in rows
    ensures var after := AfterAttempt(rows, order, a, embed);
            && id in after
            && after[id].legacy == (if BacksUp(a) then BackedUp(rows[id]).legacy else rows[id].legacy)
            && (after[id].current == rows[id].current || after[id].current.embedding.Some?)
  {
    if a.params.toModel != "" && !a.params.dryRun {
      EachRowMigratedOrLeft(Prepared(rows, a.params), order, a.params, a.failing, a.n, embed, id);
    }
  }

  /** A legacy value is never overwritten: after any attempts, backed up or not, the rollback brings back
      the one that the row had at the start. */
  lemma {:induction false} RollbackGivesOldest(rows: Rows, order: seq<Id>, attempts: seq<Attempt>,
                                               embed: string -> Vector, id: Id)
    requires Distinct(order) && id in rows && rows[id].legacy.embedding.Some?
    ensures var after := AfterAttempts(rows, order, attempts, embed);
            id in after && after[id].legacy == rows[id].legacy && RolledBack(after[id]).current == rows[id].legacy
    decreases |attempts|
  {
    if attempts != [] {
      LegacyAfterAttempt(rows, order, attempts[0], embed, id);
      RollbackGivesOldest(AfterAttempt(rows, order, attempts[0], embed), order, attempts[1..], embed, id);
    }
  }

  /** Any sequence of attempts, to any models, backed up or not, dry or not, interrupted and failing
      anywhere: what the rollback brings back for a row without a legacy value. */
  lemma {:induction false} RollbackGivesBackedUpValue(rows: Rows, order: seq<Id>, attempts: seq<Attempt>,
                                                      embed: string -> Vector, id: Id)
    requires Distinct(order) && id in rows && rows[id].legacy.embedding.None?
    ensures var after := AfterAttempts(rows, order, attempts, embed);
            id in after && RolledBack(after[id]).current == BackedUpValue(rows, order, attempts, embed, id)
    decreases |attempts|
  {
    if attempts != [] {
      var a := attempts[0];
      var next := AfterAttempt(rows, order, a, embed);
      LegacyAfterAttempt(rows, order, a, embed, id);
      if BacksUp(a) && rows[id].current.embedding.Some? {
        RollbackGivesOldest(next, order, attempts[1..], embed, id);
      } else {
        RollbackGivesBackedUpValue(next, order, attempts[1..], embed, id);
      }
    }
  }

  /** The first attempt that is not a dry run is backed up, or there is none. */
  predicate StartsWithBackup(attempts: seq<Attempt>)
    decreases |attempts|
  {
    attempts == [] || BacksUp(attempts[0])
    || ((attempts[0].params.toModel == "" || attempts[0].params.dryRun) && StartsWithBackup(attempts[1..]))
  }

  lemma {:induction false} BackedUpAtOnce(rows: Rows, order: seq<Id>, attempts: seq<Attempt>,
                                          embed: string -> Vector, id: Id)
    requires Distinct(order) && id in rows && rows[id].current.embedding.Some? && StartsWithBackup(attempts)
    ensures BackedUpValue(rows, order, attempts, embed, id) == rows[id].current
    decreases |attempts|
  {
    if attempts != [] && !BacksUp(attempts[0]) {
      BackedUpAtOnce(AfterAttempt(rows, order, attempts[0], embed), order, attempts[1..], embed, id);
    }
  }

  /** The rollback restores a row that had an embedding and no legacy value if and only if the row still had
      its original embedding and model when it was first backed up, or has them at the end if it never was;
      in particular whenever the first real attempt is backed up, whatever the later ones do. */
  lemma RollbackRestores(rows: Rows, order: seq<Id>, attempts: seq<Attempt>, embed: string -> Vector, id: Id)
    requires Distinct(order) && id in rows
    requires rows[id].current.embedding.Some? && rows[id].legacy.embedding.None?
    ensures var after := AfterAttempts(rows, order, attempts, embed);
            && id in after
            && (RolledBack(after[id]).current == rows[id].current
                <==> BackedUpValue(rows, order, attempts, embed, id) == rows[id].current)
            && (StartsWithBackup(attempts) ==> RolledBack(after[id]).current == rows[id].current)
  {
    RollbackGivesBackedUpValue(rows, order, attempts, embed, id);
    if StartsWithBackup(attempts) {
      BackedUpAtOnce(rows, order, attempts, embed, id);
    }
  }

  lemma {:induction false} EmbeddingsStay(rows: Rows, order: seq<Id>, attempts: seq<Attempt>,
                                          embed: string -> Vector, id: Id)
    requires Distinct(order) && id in rows && rows[id].current.embedding.Some?
    ensures BackedUpValue(rows, order, attempts, embed, id).embedding.Some?
    decreases |attempts|
  {
    if attempts != [] && !BacksUp(attempts[0]) {
      LegacyAfterAttempt(rows, order, attempts[0], embed, id);
      EmbeddingsStay(AfterAttempt(rows, order, attempts[0], embed), order, attempts[1..], embed, id);
    }
  }

  /** A row with neither an embedding nor a legacy value: the rollback cannot take a new embedding away, so
      it restores the row exactly when no attempt has changed it. */
  lemma {:induction false} RollbackKeepsNewEmbedding(rows: Rows, order: seq<Id>, attempts: seq<Attempt>,
                                                     embed: string -> Vector, id: Id)
    requires Distinct(order) && id in rows
    requires rows[id].current.embedding.None? && rows[id].legacy.embedding.None?
    ensures var after := AfterAttempts(rows, order, attempts, embed);
            id in after && (RolledBack(after[id]).current == rows[id].current <==> after[id] == rows[id])
    decreases |attempts|
  {
    if attempts != [] {
      var a := attempts[0];
      var next := AfterAttempt(rows, order, a, embed);
      RowChangesOnlyByMigration(rows, order, a, embed, id);
      if next[id] == rows[id] {
        RollbackKeepsNewEmbedding(next, order, attempts[1..], embed, id);
      } else {
        RollbackGivesBackedUpValue(next, order, attempts[1..], embed, id);
        EmbeddingsStay(next, order, attempts[1..], embed, id);
      }
    }
  }

  lemma RowChangesOnlyByMigration(rows: Rows, order: seq<Id>, a: Attempt, embed: string -> Vector, id: Id)
    requires Distinct(order) && id in rows
    requires rows[id].current.embedding.None? && rows[id].legacy.embedding.None?
    ensures var after := AfterAttempt(rows, order, a, embed);
            && id in after && after[id].legacy == rows[id].legacy
            && (after[id] == rows[id] || after[id].current.embedding.Some?)
  {
    if a.params.toModel != "" && !a.params.dryRun {
      EachRowMigratedOrLeft(Prepared(rows, a.params), order, a.params, a.failing, a.n, embed, id);
    }
  }

  /** The instance in which the condition fails: only the second of two migrations is backed up, and the
      rollback keeps the first one's embedding. */
  lemma UnbackedMigrationIsLost(id: Id, text: string, original: Stored, b: string, c: string, embed: string -> Vector)
    requires b != "" && c != "" && b != c && original.model != Some(b) && original.embedding.Some?
    ensures var rows := map[id := Row(text, false, original, Stored(None, None))];
            var attempts := [Attempt(Params("", b, false, false, 10), NO_FAILURES, 1),
                             Attempt(Params("", c, true, false, 10), NO_FAILURES, 1)];
            var after := AfterAttempts(rows, [id], attempts, embed);
            id in after && RolledBack(after[id]).current == Stored(Some(embed(text)), Some(b)) != original
  {
    var rows := map[id := Row(text, false, original, Stored(None, None))];
    var first := Attempt(Params("", b, false, false, 10), NO_FAILURES, 1);
    var second := Attempt(Params("", c, true, false, 10), NO_FAILURES, 1);
    OneRowRun(rows, id, first, embed);
    RollbackGivesBackedUpValue(rows, [id], [first, second], embed, id);
    assert [first, second][1..] == [second];
    assert BackedUpValue(rows, [id], [first, second], embed, id) == AfterAttempt(rows, [id], first, embed)[id].current;
  }

  lemma OneRowRun(rows: Rows, id: Id, a: Attempt, embed: string -> Vector)
    requires id in rows && a.failing == NO_FAILURES && a.n == 1 && a.params.toModel != "" && !a.params.dryRun
    ensures var after := AfterAttempt(rows, [id], a, embed);
            id in after && after[id] == Migrated(Prepared(rows, a.params)[id], a.params, embed)
  {
    var start := Prepared(rows, a.params);
    var memories := Select([id], start, a.params.fromModel);
    assert Select([], start, a.params.fromModel) == [] && [id][..0] == [];
    assert |memories| <= 1 && memories[..|memories|] == memories;
    CompleteRunMigratesEachRow(start, [id], a.params, embed, id);
  }
}
