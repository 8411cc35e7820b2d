/** `serie_a_db/db/update_tables/table_updater.py`: the draft `DbTable`, whose `update`
    reads its statements from a `DefinitionScript` and whose data come from an
    overridable `extract_data`. The table name, which the source derives from the class
    name, is given. */
module TableUpdater {
  import opened Wrappers
  import opened Exceptions
  import opened Client
  import opened DefinitionScripts
  import SqlParsing
  import Table

  /** The retrieval boundaries a subclass may compute. */
  type Boundaries = map<string, Value>

  /** `establish_data_retrieval_boundaries`, as not overridden. */
  function EstablishDataRetrievalBoundaries(): Boundaries {
    map[]
  }

  /** `get_boundary`: the value under the key, or `BoundaryNotFoundError`. */
  function GetBoundary(tableName: string, boundaries: Boundaries, key: string): (r: Result<Value, Error>)
    ensures r.Success? <==> key in boundaries
    ensures r.Success? ==> r.value == boundaries[key]
    ensures r.Failure? ==> r.error == BoundaryNotFoundError(tableName, key)
  {
    if key in boundaries then Success(boundaries[key])
    else Failure(BoundaryNotFoundError(tableName, key))
  }

  /** Without an override no boundary can be read. */
  lemma DefaultBoundariesHoldNothing(tableName: string, key: string)
    ensures GetBoundary(tableName, EstablishDataRetrievalBoundaries(), key) == Failure(BoundaryNotFoundError(tableName, key))
  {
  }

  /** The time written by `log_update_in_meta_table`: `now()` formatted to the second,
      as a millisecond count. */
  function LogTimestamp(clock: int): (r: int)
    ensures r <= clock < r + 1000 && r % 1000 == 0
  {
    (clock / 1000) * 1000
  }

  /** There is no pause after logging: two updates in the same second log the same time. */
  lemma SameSecondSameTimestamp(a: int, b: int)
    requires a <= b && b - a < 1000 && b % 1000 >= a % 1000
    ensures LogTimestamp(a) == LogTimestamp(b)
  {
    var qa, qb := a / 1000, b / 1000;
    assert a == qa * 1000 + a % 1000 && b == qb * 1000 + b % 1000;
    assert qa == qb;
  }

  /** The bulk insert into the staging table, once the records fit the staging columns. */
  function LoadStagingStep(ds: DefinitionScript, extracted: Result<seq<Row>, Error>): (r: Result<Op, Error>)
    ensures r.Success? ==>
      && extracted.Success? && StagingColumns(ds).Success?
      && Table.ErrorIfDataIncompatible(extracted.value, StagingColumns(ds).value).Pass?
      && r.value == ExecuteMany(InsertValuesIntoStaging(ds).value, extracted.value)
  {
    var data :- extracted;
    var columns :- StagingColumns(ds);
    :- Table.ErrorIfDataIncompatible(data, columns);
    Success(ExecuteMany(SqlParsing.InsertValuesTemplate(ds.name + "_staging", columns), data))
  }

  /** `Db.execute` of `serie_a_db/db/db.py`, the client the draft uses, replaces an
      `OperationalError` from SQLite by one naming the statement. The staging load calls
      `cursor.executemany` directly, so its errors pass through unchanged. */
  function DraftError(op: Op, e: Error): Error {
    if op.Execute? && e.OperationalError? then OperationalError("Error executing: " + op.statement) else e
  }

  /** The statement `Db.count_rows` executes. */
  function CountStatement(tableName: string): string {
    "SELECT COUNT(*) FROM " + tableName
  }

  /** Statements run through the draft's client: `Run`, with the error of the statement
      that fails rewrapped by `DraftError`. */
  function DraftRun(engine: Engine, store: Store, ops: seq<Op>): (t: Trace)
    ensures var u := Run(engine, store, ops);
      t.store == u.store && t.done == u.done && (t.outcome.Pass? <==> u.outcome.Pass?)
    ensures var u := Run(engine, store, ops);
      u.outcome.Fail? ==> |u.done| < |ops| && t.outcome == Fail(DraftError(ops[|u.done|], u.outcome.error))
  {
    var u := Run(engine, store, ops);
    if u.outcome.Pass? then u
    else Trace(u.store, u.done, Fail(DraftError(ops[|u.done|], u.outcome.error)))
  }

  /** Two statements through the draft's client are the first, then the second. */
  lemma DraftRunTwo(engine: Engine, store: Store, a: Op, b: Op)
    requires !a.Commit?
    ensures var first := DraftRun(engine, store, [a]);
      first.outcome.Fail? ==> DraftRun(engine, store, [a, b]) == first
    ensures var first := DraftRun(engine, store, [a]);
      first.outcome.Pass? ==>
        var second := DraftRun(engine, first.store, [b]);
        DraftRun(engine, store, [a, b]) == Trace(second.store, [a] + second.done, second.outcome)
  {
    RunCons(engine, store, a, [b]);
    RunCons(engine, store, a, []);
    assert [a, b] == [a] + [b];
    assert [a] == [a] + [];
    if Step(engine, store, a).Success? {
      RunCons(engine, Step(engine, store, a).value, b, []);
      assert [b] == [b] + [];
    }
  }

  /** `update`'s first two statements. */
  function CreateOps(ds: DefinitionScript): (r: seq<Op>)
    ensures |r| == 2 && !r[0].Commit? && !r[1].Commit?
  {
    [Execute(CreateProdTable(ds)), Execute(CreateStagingTable(ds))]
  }

  /** The statements of `update` up to the logging. */
  function DraftUpdate(engine: Engine, store: Store, ds: DefinitionScript, extracted: Result<seq<Row>, Error>): Trace {
    Pipeline(engine, store, CreateOps(ds), LoadStagingStep(ds, extracted), InsertFromStagingToProd(ds))
  }

  /** Both creates, then the rest. */
  function Pipeline(engine: Engine, store: Store, creates: seq<Op>, load: Result<Op, Error>, insert: Result<string, Error>): Trace {
    var first := DraftRun(engine, store, creates);
    if first.outcome.Fail? then first
    else
      var rest := LoadAndInsert(engine, first.store, load, insert);
      Trace(rest.store, first.done + rest.done, rest.outcome)
  }

  /** `Pipeline` statement by statement: the prod create, the staging create, then the rest. */
  lemma PipelineSteps(engine: Engine, store: Store, creates: seq<Op>, load: Result<Op, Error>, insert: Result<string, Error>)
    requires |creates| == 2 && !creates[0].Commit?
    ensures var prod := DraftRun(engine, store, [creates[0]]);
      prod.outcome.Fail? ==> Pipeline(engine, store, creates, load, insert) == prod
    ensures var prod := DraftRun(engine, store, [creates[0]]);
      var staging := DraftRun(engine, prod.store, [creates[1]]);
      prod.outcome.Pass? && staging.outcome.Fail? ==>
        Pipeline(engine, store, creates, load, insert) == Trace(staging.store, [creates[0]] + staging.done, staging.outcome)
    ensures var prod := DraftRun(engine, store, [creates[0]]);
      var staging := DraftRun(engine, prod.store, [creates[1]]);
      var rest := LoadAndInsert(engine, staging.store, load, insert);
      prod.outcome.Pass? && staging.outcome.Pass? ==>
        Pipeline(engine, store, creates, load, insert) == Trace(rest.store, [creates[0]] + staging.done + rest.done, rest.outcome)
  {
    DraftRunTwo(engine, store, creates[0], creates[1]);
    assert creates == [creates[0], creates[1]];
  }

  /** After the creates: the staging load once the load step is ready, then the insert
      into the prod table once it can be derived. */
  function LoadAndInsert(engine: Engine, store: Store, load: Result<Op, Error>, insert: Result<string, Error>): Trace {
    match load
    case Failure(e) => Trace(store, [], Fail(e))
    case Success(l) =>
      var second := DraftRun(engine, store, [l]);
      if second.outcome.Fail? then second
      else match insert
        case Failure(e) => Trace(second.store, second.done, Fail(e))
        case Success(i) =>
          var third := DraftRun(engine, second.store, [Execute(i)]);
          Trace(third.store, second.done + third.done, third.outcome)
  }

  /** A prod create that SQLite refuses with an `OperationalError` stops `update` at once,
      with the draft client's error naming that create rather than SQLite's message. */
  lemma ProdCreateFailureNamesStatement(engine: Engine, store: Store, ds: DefinitionScript,
                                        extracted: Result<seq<Row>, Error>, message: string)
    requires engine(store, Execute(CreateProdTable(ds))) == Failure(OperationalError(message))
    ensures DraftUpdate(engine, store, ds, extracted)
         == Trace(store, [], Fail(OperationalError("Error executing: " + CreateProdTable(ds))))
  {
    RunCons(engine, store, Execute(CreateProdTable(ds)), [Execute(CreateStagingTable(ds))]);
    assert CreateOps(ds) == [Execute(CreateProdTable(ds))] + [Execute(CreateStagingTable(ds))];
  }

  /** A staging load that SQLite refuses fails `update` with SQLite's own error:
      `cursor.executemany` bypasses the rewrap. */
  lemma LoadFailureIsNotRewrapped(engine: Engine, store: Store, ds: DefinitionScript, data: seq<Row>, e: Error)
    requires Run(engine, store, CreateOps(ds)).outcome.Pass?
    requires LoadStagingStep(ds, Success(data)).Success?
    requires engine(Run(engine, store, CreateOps(ds)).store, LoadStagingStep(ds, Success(data)).value) == Failure(e)
    ensures DraftUpdate(engine, store, ds, Success(data)).outcome == Fail(e)
  {
    var s := Run(engine, store, CreateOps(ds)).store;
    var l := LoadStagingStep(ds, Success(data)).value;
    RunCons(engine, s, l, []);
    assert [l] == [l] + [];
  }

  /** Check before write: records that do not fit never reach the staging table. */
  lemma DraftCheckBeforeWrite(engine: Engine, store: Store, ds: DefinitionScript, data: seq<Row>)
    requires StagingColumns(ds).Success?
    requires Table.ErrorIfDataIncompatible(data, StagingColumns(ds).value).Fail?
    ensures var tr := DraftUpdate(engine, store, ds, Success(data));
      && tr.outcome.Fail?
      && (forall op | op in tr.done :: !op.ExecuteMany?)
      && tr.done <= CreateOps(ds)
  {
    var ops := CreateOps(ds);
    var first := DraftRun(engine, store, ops);
    assert LoadStagingStep(ds, Success(data)).Failure?;
    assert LoadAndInsert(engine, first.store, LoadStagingStep(ds, Success(data)), InsertFromStagingToProd(ds)).done == [];
    assert DraftUpdate(engine, store, ds, Success(data)).done <= first.done;
    forall op | op in first.done ensures !op.ExecuteMany? {
      assert op in ops;
    }
  }

  /** A successful run executes the two creates, loads every record, then inserts into
      the prod table, in that order. */
  lemma DraftUpdateOrder(engine: Engine, store: Store, ds: DefinitionScript, extracted: Result<seq<Row>, Error>)
    ensures var tr := DraftUpdate(engine, store, ds, extracted);
      tr.outcome.Pass? ==>
        && extracted.Success? && InsertValuesIntoStaging(ds).Success? && InsertFromStagingToProd(ds).Success?
        && tr.done == [Execute(CreateProdTable(ds)), Execute(CreateStagingTable(ds)),
                       ExecuteMany(InsertValuesIntoStaging(ds).value, extracted.value),
                       Execute(InsertFromStagingToProd(ds).value)]
  {
    var load := LoadStagingStep(ds, extracted);
    PipelinePass(engine, store, CreateOps(ds), load, InsertFromStagingToProd(ds));
    if DraftUpdate(engine, store, ds, extracted).outcome.Pass? {
      var tail := [load.value, Execute(InsertFromStagingToProd(ds).value)];
      assert CreateOps(ds) + tail == [CreateOps(ds)[0], CreateOps(ds)[1], tail[0], tail[1]];
    }
  }

  /** A successful pipeline ran the creates, the load and the insert. */
  lemma PipelinePass(engine: Engine, store: Store, creates: seq<Op>, load: Result<Op, Error>, insert: Result<string, Error>)
    ensures var tr := Pipeline(engine, store, creates, load, insert);
      tr.outcome.Pass? ==>
        load.Success? && insert.Success? && tr.done == creates + [load.value, Execute(insert.value)]
  {
    var first := DraftRun(engine, store, creates);
    if first.outcome.Pass? && load.Success? {
      var second := DraftRun(engine, first.store, [load.value]);
      if second.outcome.Pass? && insert.Success? {
        var third := DraftRun(engine, second.store, [Execute(insert.value)]);
        assert [load.value] + [Execute(insert.value)] == [load.value, Execute(insert.value)];
      }
    }
  }

  /** `DbTable`. */
  class DbTable {
    const db: Db
    const script: DefinitionScript
    const tableName: string
    /** `extract_data`: what it gives for each set of boundaries. */
    var extractData: Boundaries -> Result<seq<Row>, Error>

    constructor(db: Db, script: DefinitionScript, tableName: string, extractData: Boundaries -> Result<seq<Row>, Error>)
      ensures this.db == db && this.script == script && this.tableName == tableName
      ensures this.extractData == extractData
    {
      this.db := db;
      this.script := script;
      this.tableName := tableName;
      this.extractData := extractData;
    }

    /** `mock_extract_response`: from now on the extraction gives `data`, whatever the
        boundaries. */
    method MockExtractResponse(data: seq<Row>)
      modifies this
      ensures forall b :: extractData(b) == Success(data)
    {
      extractData := b => Success(data);
    }

    /** `update`: the statements of `DraftUpdate`, then the log row and the commit. Its
        log row goes through `InsertLogRow`, so it neither needs nor keeps `db.Valid()`. */
    method Update() returns (r: Outcome<Error>)
      modifies db
      ensures var tr := DraftUpdate(db.engine, old(db.store), script, extractData(EstablishDataRetrievalBoundaries()));
        && db.store == tr.store
        && (r.Pass? <==> tr.outcome.Pass? && tableName in tr.store)
        && (tr.outcome.Fail? ==> r == tr.outcome)
        && (tr.outcome.Pass? && tableName !in tr.store ==> r == Fail(OperationalError("Error executing: " + CountStatement(tableName))))
        && (r.Fail? ==> db.journal == old(db.journal) + tr.done && db.log == old(db.log))
        && (r.Pass? ==>
              && db.journal == old(db.journal) + tr.done + [Commit]
              && db.log == old(db.log) + [LogEntry(tableName, LogTimestamp(old(db.clock)), |tr.store[tableName]|)])
      ensures db.parameters == old(db.parameters) && db.clock == old(db.clock)
    {
      var extracted := extractData(EstablishDataRetrievalBoundaries());
      r := RunPipeline(db, CreateOps(script), LoadStagingStep(script, extracted), InsertFromStagingToProd(script));
      if r.Pass? {
        r := LogUpdateInMetaTable();
        if r.Pass? {
          db.CommitChanges();
        }
      }
    }

    /** `log_update_in_meta_table`: the row count, then one log row stamped to the second.
        The count goes through the draft client's `execute`, so a missing table fails
        with that client's message. */
    method LogUpdateInMetaTable() returns (r: Outcome<Error>)
      modifies db
      ensures r.Pass? <==> tableName in old(db.store)
      ensures r.Pass? ==> db.log == old(db.log) + [LogEntry(tableName, LogTimestamp(old(db.clock)), |old(db.store)[tableName]|)]
      ensures r.Fail? ==> r.error == OperationalError("Error executing: " + CountStatement(tableName)) && db.log == old(db.log)
      ensures db.store == old(db.store) && db.journal == old(db.journal)
      ensures db.parameters == old(db.parameters) && db.clock == old(db.clock)
    {
      var count := db.CountRows(tableName);
      if count.Failure? {
        return Fail(DraftError(Execute(CountStatement(tableName)), count.error));
      }
      db.InsertLogRow(LogEntry(tableName, LogTimestamp(db.clock), count.value));
      r := Pass;
    }
  }

  /** The statements of `Pipeline`, against the client. */
  method RunPipeline(db: Db, creates: seq<Op>, load: Result<Op, Error>, insert: Result<string, Error>) returns (r: Outcome<Error>)
    requires |creates| == 2 && !creates[0].Commit? && !creates[1].Commit?
    requires load.Success? ==> !load.value.Commit?
    modifies db
    ensures var tr := Pipeline(db.engine, old(db.store), creates, load, insert);
      r == tr.outcome && db.store == tr.store && db.journal == old(db.journal) + tr.done
    ensures db.log == old(db.log) && db.parameters == old(db.parameters) && db.clock == old(db.clock)
  {
    PipelineSteps(db.engine, db.store, creates, load, insert);
    r := RunDraftStatement(db, creates[0]);
    if r.Fail? {
      return;
    }
    r := RunDraftStatement(db, creates[1]);
    if r.Fail? {
      return;
    }
    r := RunLoadAndInsert(db, load, insert);
  }

  /** The load and the insert into the prod table, against the client. */
  method RunLoadAndInsert(db: Db, load: Result<Op, Error>, insert: Result<string, Error>) returns (r: Outcome<Error>)
    requires load.Success? ==> !load.value.Commit?
    modifies db
    ensures var tr := LoadAndInsert(db.engine, old(db.store), load, insert);
      r == tr.outcome && db.store == tr.store && db.journal == old(db.journal) + tr.done
    ensures db.log == old(db.log) && db.parameters == old(db.parameters) && db.clock == old(db.clock)
  {
    if load.Failure? {
      return Fail(load.error);
    }
    ghost var second := DraftRun(db.engine, db.store, [load.value]);
    r := RunDraftStatement(db, load.value);
    if r.Fail? {
      return;
    }
    if insert.Failure? {
      return Fail(insert.error);
    }
    ghost var third := DraftRun(db.engine, db.store, [Execute(insert.value)]);
    r := RunDraftStatement(db, Execute(insert.value));
    assert LoadAndInsert(db.engine, old(db.store), load, insert)
        == Trace(third.store, second.done + third.done, third.outcome);
  }

  /** One statement through the draft's client. */
  method RunDraftStatement(db: Db, op: Op) returns (r: Outcome<Error>)
    requires !op.Commit?
    modifies db
    ensures var tr := DraftRun(db.engine, old(db.store), [op]);
      r == tr.outcome && db.store == tr.store && db.journal == old(db.journal) + tr.done
    ensures db.log == old(db.log) && db.parameters == old(db.parameters) && db.clock == old(db.clock)
  {
    r := Table.RunStatement(db, op);
    if r.Fail? {
      r := Fail(DraftError(op, r.error));
    }
  }
}
