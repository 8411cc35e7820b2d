/** `serie_a_db/db/notepad.py`: the draft `CoreTable` and `StagingTable`, built on the
    older parsing helpers. The registry `TABLES` they consult is given as its set of
    keys, and the extraction callable by what calling it gives (`None` when absent). */
module Notepad {
  import opened Wrappers
  import opened Exceptions
  import opened Client
  import opened PyStr
  import SqlParsing
  import ParseSqlScript
  import Table

  datatype CoreTable = CoreTable(name: string, statementDefineProd: string, statementPopulateProd: string)

  datatype StagingTable = StagingTable(
    name: string,
    statementDefineStaging: string,
    extractExternalData: Option<Result<seq<Row>, Error>>)

  /** `CoreTable.from_file` without the file read: two statements, each validated. */
  function CoreTableFromScript(name: string, script: string): (r: Result<CoreTable, Error>)
    ensures r.Success? <==>
      && SqlParsing.SplitStatements(script, 2).Success?
      && Contains(SqlParsing.SplitStatements(script, 2).value[0], SqlParsing.CreateWarehousePattern(name))
      && Contains(SqlParsing.SplitStatements(script, 2).value[1], SqlParsing.PopulateWarehousePattern(name))
    ensures r.Success? ==>
      r.value == CoreTable(name, SqlParsing.SplitStatements(script, 2).value[0], SqlParsing.SplitStatements(script, 2).value[1])
  {
    var statements :- SqlParsing.SplitStatements(script, 2);
    var d :- SqlParsing.ValidateCreateStatementWh(statements[0], name);
    var p :- SqlParsing.ValidatePopulateStatementWh(statements[1], name);
    Success(CoreTable(name, d, p))
  }

  /** `StagingTable.from_file` without the file read: one statement creating the table. */
  function StagingTableFromScript(name: string, script: string, extract: Option<Result<seq<Row>, Error>>): (r: Result<StagingTable, Error>)
    ensures r.Success? <==>
      && SqlParsing.SplitStatements(script, 1).Success?
      && Contains(SqlParsing.SplitStatements(script, 1).value[0], SqlParsing.CreateStagingPattern(name))
    ensures r.Success? ==> r.value == StagingTable(name, SqlParsing.SplitStatements(script, 1).value[0], extract)
  {
    var statements :- SqlParsing.SplitStatements(script, 1);
    var d :- SqlParsing.ValidateCreateStagingStatement(statements[0], name);
    Success(StagingTable(name, d, extract))
  }

  /** `CoreTable.depends_on`: every registered name occurring in the populate statement,
      other than the table's own. */
  function CoreDependsOn(t: CoreTable, registry: set<string>): (r: set<string>)
    ensures r <= registry && t.name !in r
    ensures forall k | k in registry && k != t.name :: k in r <==> Contains(t.statementPopulateProd, k)
  {
    ParseSqlScript.DependsOn(t.statementPopulateProd, registry) - {t.name}
  }

  /** `StagingTable.depends_on`. */
  function StagingDependsOn(t: StagingTable): set<string> {
    {}
  }

  /** Registering more tables never drops a dependency, and the dependencies within a
      smaller registry are those of the larger one that it registers. */
  lemma CoreDependsOnMonotone(t: CoreTable, small: set<string>, large: set<string>)
    requires small <= large
    ensures CoreDependsOn(t, small) <= CoreDependsOn(t, large)
    ensures CoreDependsOn(t, small) == CoreDependsOn(t, large) * small
  {
    forall k | k in CoreDependsOn(t, large) * small
      ensures k in CoreDependsOn(t, small)
    {
      assert k != t.name && Contains(t.statementPopulateProd, k);
    }
  }

  /** `CoreTable.update`: the two statements, with no commit. */
  function CoreOps(t: CoreTable): seq<Op> {
    [Execute(t.statementDefineProd), Execute(t.statementPopulateProd)]
  }

  method UpdateCore(t: CoreTable, db: Db) returns (r: Outcome<Error>)
    modifies db
    ensures var tr := Run(db.engine, old(db.store), CoreOps(t));
      r == tr.outcome && db.store == tr.store && db.journal == old(db.journal) + tr.done
    ensures db.log == old(db.log) && db.parameters == old(db.parameters) && db.clock == old(db.clock)
  {
    r := Table.RunStatements(db, CoreOps(t));
  }

  /** The core update never commits: whatever it runs is a prefix of its two statements. */
  lemma CoreUpdateDoesNotCommit(engine: Engine, store: Store, t: CoreTable)
    ensures var tr := Run(engine, store, CoreOps(t));
      && Commit !in tr.done
      && (tr.outcome.Pass? <==> tr.done == [Execute(t.statementDefineProd), Execute(t.statementPopulateProd)])
  {
    var tr := Run(engine, store, CoreOps(t));
    assert forall op | op in tr.done :: op in CoreOps(t);
  }

  /** What must hold before the staging load: a callable was given and returned records,
      the columns were found and the compatibility check passed. */
  function StagingLoadStep(t: StagingTable): (r: Result<Op, Error>)
    ensures r.Success? ==>
      && t.extractExternalData.Some? && t.extractExternalData.value.Success?
      && ParseSqlScript.ExtractColumnsFromCreateStatement(t.statementDefineStaging).Success?
      && Table.ErrorIfDataIncompatible(
           t.extractExternalData.value.value,
           ParseSqlScript.ExtractColumnsFromCreateStatement(t.statementDefineStaging).value).Pass?
      && r.value == ExecuteMany(
           ParseSqlScript.InferPopulateStagingStatement(t.statementDefineStaging, t.name).value,
           t.extractExternalData.value.value)
    ensures t.extractExternalData.None? ==> r == Failure(TypeError("'NoneType' object is not callable"))
  {
    if t.extractExternalData.None? then Failure(TypeError("'NoneType' object is not callable"))
    else
      var data :- t.extractExternalData.value;
      var columns :- ParseSqlScript.ExtractColumnsFromCreateStatement(t.statementDefineStaging);
      :- Table.ErrorIfDataIncompatible(data, columns);
      Success(ExecuteMany(SqlParsing.InsertValuesTemplate(t.name, columns), data))
  }

  /** `StagingTable.update`: create (no drop), then the load once the step is ready. */
  function StagingUpdate(engine: Engine, store: Store, t: StagingTable): Trace {
    var first := Run(engine, store, [Execute(t.statementDefineStaging)]);
    if first.outcome.Fail? then first
    else match StagingLoadStep(t)
      case Failure(e) => Trace(first.store, first.done, Fail(e))
      case Success(load) =>
        var second := Run(engine, first.store, [load]);
        Trace(second.store, first.done + second.done, second.outcome)
  }

  /** Check before write, and no drop: a failing check leaves at most the create done. */
  lemma StagingCheckBeforeWrite(engine: Engine, store: Store, t: StagingTable)
    requires t.extractExternalData.Some? && t.extractExternalData.value.Success?
    requires ParseSqlScript.ExtractColumnsFromCreateStatement(t.statementDefineStaging).Success?
    requires Table.ErrorIfDataIncompatible(
      t.extractExternalData.value.value,
      ParseSqlScript.ExtractColumnsFromCreateStatement(t.statementDefineStaging).value).Fail?
    ensures var tr := StagingUpdate(engine, store, t);
      tr.outcome.Fail? && tr.done <= [Execute(t.statementDefineStaging)]
  {
    assert StagingLoadStep(t).Failure?;
  }

  /** A successful staging update creates the table and loads every record, and does
      not commit. */
  lemma StagingUpdateOrder(engine: Engine, store: Store, t: StagingTable)
    ensures var tr := StagingUpdate(engine, store, t);
      tr.outcome.Pass? ==>
        && StagingLoadStep(t).Success?
        && tr.done == [Execute(t.statementDefineStaging), StagingLoadStep(t).value]
  {
  }

  method UpdateStaging(t: StagingTable, db: Db) returns (r: Outcome<Error>)
    modifies db
    ensures var tr := StagingUpdate(db.engine, old(db.store), t);
      r == tr.outcome && db.store == tr.store && db.journal == old(db.journal) + tr.done
    ensures db.log == old(db.log) && db.parameters == old(db.parameters) && db.clock == old(db.clock)
  {
    ghost var first := Run(db.engine, db.store, [Execute(t.statementDefineStaging)]);
    r := Table.RunStatement(db, Execute(t.statementDefineStaging));
    if r.Fail? {
      assert StagingUpdate(db.engine, old(db.store), t) == first;
      return;
    }
    var load := StagingLoadStep(t);
    if load.Failure? {
      r := Fail(load.error);
      assert StagingUpdate(db.engine, old(db.store), t) == Trace(first.store, first.done, r);
      return;
    }
    ghost var second := Run(db.engine, db.store, [load.value]);
    r := Table.RunStatement(db, load.value);
    assert StagingUpdate(db.engine, old(db.store), t) == Trace(second.store, first.done + second.done, second.outcome);
  }
}
