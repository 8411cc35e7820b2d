/** `serie_a_db/db/table.py`: the tables the updater refreshes. A warehouse table runs its
    own CREATE and INSERT statements; a staging table is dropped, recreated and loaded
    with the records its extraction returns, after a compatibility check. */
module Table {
  import opened Wrappers
  import opened Exceptions
  import opened Client
  import SqlParsing
  import opened PyStr

  /** `WarehouseTable` and `StagingTable`. The staging table's extraction callable is
      represented by what calling it gives: the records, or the error it raises. */
  datatype DbTable =
    | WarehouseTable(name: string, definitionStatement: string, populateStatement: string)
    | StagingTable(name: string, stagingDefinition: string, extracted: Result<seq<Row>, Error>)

  /** `WarehouseTable.__init__`: both statements are validated. */
  function MakeWarehouseTable(name: string, definition: string, populate: string): (r: Result<DbTable, Error>)
    ensures r.Success? <==>
      && Contains(definition, SqlParsing.CreateWarehousePattern(name))
      && Contains(populate, SqlParsing.PopulateWarehousePattern(name))
    ensures r.Success? ==> r.value == WarehouseTable(name, definition, populate)
  {
    var d :- SqlParsing.ValidateCreateStatementWh(definition, name);
    var p :- SqlParsing.ValidatePopulateStatementWh(populate, name);
    Success(WarehouseTable(name, d, p))
  }

  /** `WarehouseTable.from_file` without the file read: exactly two statements, the first
      a definition and the second a populate statement of the table; otherwise the count
      error, or the pattern error of the first statement that fails its check. */
  function WarehouseFromScript(name: string, script: string): (r: Result<DbTable, Error>)
    ensures var split := SqlParsing.SplitStatements(script, 2);
      r.Success? <==>
        && split.Success?
        && Contains(split.value[0], SqlParsing.CreateWarehousePattern(name))
        && Contains(split.value[1], SqlParsing.PopulateWarehousePattern(name))
    ensures var split := SqlParsing.SplitStatements(script, 2);
      r.Success? ==> split.Success? && r.value == WarehouseTable(name, split.value[0], split.value[1])
    ensures var split := SqlParsing.SplitStatements(script, 2);
      r.Failure? ==>
        r.error == (if split.Failure? then split.error
                    else if !Contains(split.value[0], SqlParsing.CreateWarehousePattern(name))
                    then InvalidStatementError(SqlParsing.CreateWarehousePattern(name))
                    else InvalidStatementError(SqlParsing.PopulateWarehousePattern(name)))
  {
    var statements :- SqlParsing.SplitStatements(script, 2);
    var d :- SqlParsing.ValidateCreateStatementWh(statements[0], name);
    var p :- SqlParsing.ValidatePopulateStatementWh(statements[1], name);
    MakeWarehouseTable(name, d, p)
  }

  /** `StagingTable.from_file` without the file read: exactly one statement, and it
      creates the table. */
  function StagingFromScript(name: string, script: string, extracted: Result<seq<Row>, Error>): (r: Result<DbTable, Error>)
    ensures r.Success? <==>
      && SqlParsing.SplitStatements(script, 1).Success?
      && Contains(SqlParsing.SplitStatements(script, 1).value[0], SqlParsing.CreateStagingPattern(name))
    ensures r.Success? ==> r.value == StagingTable(name, SqlParsing.SplitStatements(script, 1).value[0], extracted)
  {
    var statements :- SqlParsing.SplitStatements(script, 1);
    var d :- SqlParsing.ValidateCreateStagingStatement(statements[0], name);
    Success(StagingTable(name, d, extracted))
  }

  /** `depends_on`: the schema tables a warehouse table's populate statement references,
      other than itself; a staging table depends on nothing. */
  function DependsOn(t: DbTable, schemaKeys: set<string>): (r: set<string>)
    ensures r <= schemaKeys && t.name !in r
    ensures t.StagingTable? ==> r == {}
    ensures t.WarehouseTable? ==> forall k | k in schemaKeys && k != t.name ::
      k in r <==> SqlParsing.References(t.populateStatement, k)
  {
    match t
    case WarehouseTable(name, _, populate) => SqlParsing.DependsOn(populate, schemaKeys) - {name}
    case StagingTable(_, _, _) => {}
  }

  /** `StagingTable.populate_statement`, `staging_columns` and `drop_statement`. */
  function PopulateStatement(t: DbTable): Result<string, Error>
    requires t.StagingTable?
  {
    SqlParsing.DerivePopulateStagingStatement(t.stagingDefinition, t.name)
  }

  function StagingColumns(t: DbTable): Result<seq<string>, Error>
    requires t.StagingTable?
  {
    SqlParsing.ExtractAttributesFromCreateStatement(t.stagingDefinition)
  }

  function DropStatement(t: DbTable): string
    requires t.StagingTable?
  {
    SqlParsing.DeriveDropTableStatement(t.name)
  }

  /** `error_if_data_incompatible`: only the first and the last record are compared with
      the columns; an empty batch fails on `data[0]`. */
  function ErrorIfDataIncompatible(data: seq<Row>, columns: seq<string>): (r: Outcome<Error>)
    ensures r.Pass? <==> data != [] && data[0].fields == columns && data[|data| - 1].fields == columns
    ensures data == [] ==> r == Fail(IndexError)
    ensures data != [] && data[0].fields != columns ==> r == Fail(IncompatibleDataError(columns, data[0].fields))
  {
    if data == [] then Fail(IndexError)
    else if data[0].fields != columns then Fail(IncompatibleDataError(columns, data[0].fields))
    else if data[|data| - 1].fields != columns then Fail(IncompatibleDataError(columns, data[|data| - 1].fields))
    else Pass
  }

  /** The compatibility check trusts the inner records: a bad record between two good ones passes. */
  lemma MiddleRecordsUnchecked(good: Row, bad: Row)
    requires bad.fields != good.fields
    ensures ErrorIfDataIncompatible([good, bad, good], good.fields).Pass?
  {
  }

  /** `WarehouseTable.update`: the definition, then the populate statement, then a commit. */
  function WarehouseOps(t: DbTable): seq<Op>
    requires t.WarehouseTable?
  {
    [Execute(t.definitionStatement), Execute(t.populateStatement), Commit]
  }

  /** What must hold before a staging table is loaded: the records could be extracted,
      the columns found, the compatibility check passed; the result is the bulk insert to run. */
  function LoadStep(t: DbTable): (r: Result<Op, Error>)
    requires t.StagingTable?
    ensures r.Success? ==>
      && t.extracted.Success? && StagingColumns(t).Success?
      && ErrorIfDataIncompatible(t.extracted.value, StagingColumns(t).value).Pass?
      && r.value == ExecuteMany(PopulateStatement(t).value, t.extracted.value)
  {
    var data :- t.extracted;
    var columns :- StagingColumns(t);
    :- ErrorIfDataIncompatible(data, columns);
    Success(ExecuteMany(SqlParsing.InsertValuesTemplate(t.name, columns), data))
  }

  /** Two setup statements, then, once the load statement is ready, the load and a
      commit. */
  function Phases(engine: Engine, store: Store, setup: seq<Op>, load: Result<Op, Error>): Trace {
    var first := Run(engine, store, setup);
    if first.outcome.Fail? then first
    else match load
      case Failure(e) => Trace(first.store, first.done, Fail(e))
      case Success(op) =>
        var second := Run(engine, first.store, [op, Commit]);
        Trace(second.store, first.done + second.done, second.outcome)
  }

  /** `StagingTable.update`: drop, create, then (once the load step is ready) bulk insert
      and commit. */
  function StagingUpdate(engine: Engine, store: Store, t: DbTable): Trace
    requires t.StagingTable?
  {
    Phases(engine, store, [Execute(DropStatement(t)), Execute(t.stagingDefinition)], LoadStep(t))
  }

  /** The effect of `update` for either kind of table. */
  function TableUpdate(engine: Engine, store: Store, t: DbTable): Trace {
    if t.WarehouseTable? then Run(engine, store, WarehouseOps(t)) else StagingUpdate(engine, store, t)
  }

  /** A warehouse update that succeeds runs its two statements and commits, in order. */
  lemma WarehouseUpdateOrder(engine: Engine, store: Store, t: DbTable)
    requires t.WarehouseTable?
    ensures var tr := TableUpdate(engine, store, t);
      tr.outcome.Pass? <==> tr.done == [Execute(t.definitionStatement), Execute(t.populateStatement), Commit]
  {
  }

  /** Check before write: when the records do not fit the columns, nothing is inserted
      and the update fails with the compatibility check's error. */
  lemma StagingCheckBeforeWrite(engine: Engine, store: Store, t: DbTable)
    requires t.StagingTable? && t.extracted.Success? && StagingColumns(t).Success?
    requires ErrorIfDataIncompatible(t.extracted.value, StagingColumns(t).value).Fail?
    ensures var tr := TableUpdate(engine, store, t);
      && tr.outcome.Fail?
      && (forall op | op in tr.done :: !op.ExecuteMany?)
      && tr.done <= [Execute(DropStatement(t)), Execute(t.stagingDefinition)]
  {
    var ops := [Execute(DropStatement(t)), Execute(t.stagingDefinition)];
    var first := Run(engine, store, ops);
    assert LoadStep(t).Failure?;
    assert TableUpdate(engine, store, t).done == first.done;
    forall op | op in first.done ensures !op.ExecuteMany? {
      assert op in ops;
    }
  }

  /** A staging update that succeeds drops, creates, loads every extracted record with
      the derived insert, and commits, in that order. */
  lemma StagingUpdateOrder(engine: Engine, store: Store, t: DbTable)
    requires t.StagingTable?
    ensures var tr := TableUpdate(engine, store, t);
      tr.outcome.Pass? ==>
        && LoadStep(t).Success?
        && tr.done == [Execute(DropStatement(t)), Execute(t.stagingDefinition),
                       ExecuteMany(PopulateStatement(t).value, t.extracted.value), Commit]
  {
    StagingUpdatePass(engine, store, t);
    if TableUpdate(engine, store, t).outcome.Pass? {
      var load := LoadStep(t).value;
      assert load == ExecuteMany(PopulateStatement(t).value, t.extracted.value);
      assert [Execute(DropStatement(t)), Execute(t.stagingDefinition)] + [load, Commit]
          == [Execute(DropStatement(t)), Execute(t.stagingDefinition), load, Commit];
    }
  }

  /** A staging update that succeeds ran both phases in full. */
  lemma StagingUpdatePass(engine: Engine, store: Store, t: DbTable)
    requires t.StagingTable?
    ensures var tr := StagingUpdate(engine, store, t);
      tr.outcome.Pass? ==>
        LoadStep(t).Success? && tr.done == [Execute(DropStatement(t)), Execute(t.stagingDefinition)] + [LoadStep(t).value, Commit]
  {
  }

  /** `update`, against the client. */
  method Update(t: DbTable, db: Db) returns (r: Outcome<Error>)
    modifies db
    ensures var tr := TableUpdate(db.engine, old(db.store), t);
      r == tr.outcome && db.store == tr.store && db.journal == old(db.journal) + tr.done
    ensures db.log == old(db.log) && db.parameters == old(db.parameters) && db.clock == old(db.clock)
  {
    if t.WarehouseTable? {
      r := UpdateWarehouse(t, db);
    } else {
      r := UpdateStaging(t, db);
    }
  }

  method UpdateWarehouse(t: DbTable, db: Db) returns (r: Outcome<Error>)
    requires t.WarehouseTable?
    modifies db
    ensures var tr := Run(db.engine, old(db.store), WarehouseOps(t));
      r == tr.outcome && db.store == tr.store && db.journal == old(db.journal) + tr.done
    ensures db.log == old(db.log) && db.parameters == old(db.parameters) && db.clock == old(db.clock)
  {
    var ops := WarehouseOps(t);
    RunCons(db.engine, db.store, ops[0], ops[1..]);
    assert [ops[0]] + ops[1..] == ops;
    r := db.Run1(ops[0]);
    if r.Fail? {
      return;
    }
    RunCons(db.engine, db.store, ops[1], [Commit]);
    r := db.Run1(ops[1]);
    if r.Fail? {
      return;
    }
    RunCons(db.engine, db.store, Commit, []);
    db.CommitChanges();
  }

  /** The records enter as a value, so the load step, computed before the drop, is the
      one the source computes after the create. */
  method UpdateStaging(t: DbTable, db: Db) returns (r: Outcome<Error>)
    requires t.StagingTable?
    modifies db
    ensures var tr := StagingUpdate(db.engine, old(db.store), t);
      r == tr.outcome && db.store == tr.store && db.journal == old(db.journal) + tr.done
    ensures db.log == old(db.log) && db.parameters == old(db.parameters) && db.clock == old(db.clock)
  {
    var load := LoadStep(t);
    r := RunPhases(db, [Execute(DropStatement(t)), Execute(t.stagingDefinition)], load);
  }

  method RunPhases(db: Db, setup: seq<Op>, load: Result<Op, Error>) returns (r: Outcome<Error>)
    requires |setup| == 2 && !setup[0].Commit?
    requires load.Success? ==> !load.value.Commit?
    modifies db
    ensures var tr := Phases(db.engine, old(db.store), setup, load);
      r == tr.outcome && db.store == tr.store && db.journal == old(db.journal) + tr.done
    ensures db.log == old(db.log) && db.parameters == old(db.parameters) && db.clock == old(db.clock)
  {
    ghost var first := Run(db.engine, db.store, setup);
    r := RunStatements(db, setup);
    if r.Fail? {
      return;
    }
    if load.Failure? {
      r := Fail(load.error);
      return;
    }
    ghost var second := Run(db.engine, db.store, [load.value, Commit]);
    r := RunStatements(db, [load.value, Commit]);
    assert db.journal == old(db.journal) + (first.done + second.done);
  }

  /** Two statements in a row, the second only if the first succeeds. */
  method RunStatements(db: Db, ops: seq<Op>) returns (r: Outcome<Error>)
    requires |ops| == 2 && !ops[0].Commit?
    modifies db
    ensures var tr := Run(db.engine, old(db.store), ops);
      r == tr.outcome && db.store == tr.store && db.journal == old(db.journal) + tr.done
    ensures db.log == old(db.log) && db.parameters == old(db.parameters) && db.clock == old(db.clock)
  {
    RunCons(db.engine, db.store, ops[0], ops[1..]);
    assert [ops[0]] + ops[1..] == ops;
    r := db.Run1(ops[0]);
    if r.Fail? {
      return;
    }
    RunCons(db.engine, db.store, ops[1], []);
    assert ops[1..] == [ops[1]] + [];
    if ops[1].Commit? {
      db.CommitChanges();
    } else {
      r := db.Run1(ops[1]);
    }
  }

  /** One statement, through `execute` or `cursor.executemany`. */
  method RunStatement(db: Db, op: Op) returns (r: Outcome<Error>)
    requires !op.Commit?
    modifies db
    ensures var tr := Run(db.engine, old(db.store), [op]);
      r == tr.outcome && db.store == tr.store && db.journal == old(db.journal) + tr.done
    ensures db.log == old(db.log) && db.parameters == old(db.parameters) && db.clock == old(db.clock)
  {
    RunCons(db.engine, db.store, op, []);
    assert [op] + [] == [op];
    r := db.Run1(op);
  }
}
