/** `serie_a_db/db/client.py`: the database client `Db` and its meta interface `DbMeta`.
    SQLite itself is abstract: the client holds a map from table name to rows, the
    statements it has run, the update log `ft_tables_update`, the parameter rows of
    `dm_parameter` and a logical millisecond clock. The effect of a statement on the
    tables is given by an engine function fixed at construction. */
module Client {
  import opened Wrappers
  import opened Exceptions

  datatype Value = IntValue(i: int) | RealValue(r: real) | TextValue(t: string) | NullValue

  /** A record: its field names (a namedtuple's `_fields`) and its values. */
  datatype Row = Row(fields: seq<string>, values: seq<Value>)

  /** What the client sends to SQLite. */
  datatype Op = Execute(statement: string) | ExecuteMany(statement: string, rows: seq<Row>) | Commit

  type Store = map<string, seq<Row>>

  /** SQL semantics: the new tables after a statement, or SQLite's error. */
  type Engine = (Store, Op) -> Result<Store, Error>

  /** One row of `ft_tables_update`. */
  datatype LogEntry = LogEntry(tableName: string, ts: int, rowsNumber: nat)

  /** SQLite's error for a `SELECT COUNT(*)` on a table that does not exist. */
  function NoSuchTableMessage(tableName: string): Error {
    OperationalError("no such table: " + tableName)
  }

  /** One row of `dm_parameter`. */
  datatype Parameter = Parameter(key: string, value: real)

  /** One statement; committing always succeeds. */
  function Step(engine: Engine, store: Store, op: Op): Result<Store, Error> {
    if op.Commit? then Success(store) else engine(store, op)
  }

  /** The result of running statements in order, stopping at the first failure. */
  datatype Trace = Trace(store: Store, done: seq<Op>, outcome: Outcome<Error>)

  function Run(engine: Engine, store: Store, ops: seq<Op>): (t: Trace)
    ensures t.done <= ops
    ensures t.outcome.Pass? <==> t.done == ops
    ensures t.store == Apply(engine, store, t.done)
    decreases |ops|
  {
    if ops == [] then Trace(store, [], Pass)
    else match Step(engine, store, ops[0])
      case Failure(e) => Trace(store, [], Fail(e))
      case Success(s) =>
        var rest := Run(engine, s, ops[1..]);
        assert ([ops[0]] + rest.done)[1..] == rest.done;
        Trace(rest.store, [ops[0]] + rest.done, rest.outcome)
  }

  /** The tables after replaying statements that all succeeded. */
  function Apply(engine: Engine, store: Store, ops: seq<Op>): Store
    decreases |ops|
  {
    if ops == [] then store
    else match Step(engine, store, ops[0])
      case Failure(_) => store
      case Success(s) => Apply(engine, s, ops[1..])
  }

  lemma {:induction false} ApplyAppend(engine: Engine, store: Store, a: seq<Op>, b: seq<Op>)
    requires Run(engine, store, a).outcome.Pass?
    ensures Apply(engine, store, a + b) == Apply(engine, Apply(engine, store, a), b)
    decreases |a|
  {
    if a == [] {
      assert a + b == b;
    } else {
      assert (a + b)[0] == a[0];
      assert (a + b)[1..] == a[1..] + b;
      var s := Step(engine, store, a[0]).value;
      ApplyAppend(engine, s, a[1..], b);
    }
  }

  /** Running statements is running the first one, then the rest from its result. */
  lemma RunCons(engine: Engine, store: Store, op: Op, rest: seq<Op>)
    ensures Step(engine, store, op).Failure? ==>
      Run(engine, store, [op] + rest) == Trace(store, [], Fail(Step(engine, store, op).error))
    ensures Step(engine, store, op).Success? ==>
      var t := Run(engine, Step(engine, store, op).value, rest);
      Run(engine, store, [op] + rest) == Trace(t.store, [op] + t.done, t.outcome)
  {
    assert ([op] + rest)[0] == op;
    assert ([op] + rest)[1..] == rest;
  }

  predicate Increasing(log: seq<LogEntry>) {
    forall i, j :: 0 <= i < j < |log| ==> log[i].ts < log[j].ts
  }

  /** `ORDER BY datetime_updated DESC LIMIT 1`: the greatest timestamp logged for the table. */
  function LatestUpdate(log: seq<LogEntry>, tableName: string): (r: Option<int>)
    ensures r.None? <==> forall i :: 0 <= i < |log| ==> log[i].tableName != tableName
    ensures r.Some? ==> exists i :: 0 <= i < |log| && log[i].tableName == tableName && log[i].ts == r.value
    ensures r.Some? ==> forall i :: 0 <= i < |log| && log[i].tableName == tableName ==> log[i].ts <= r.value
    decreases |log|
  {
    if log == [] then None
    else
      var prev := LatestUpdate(log[..|log| - 1], tableName);
      var e := log[|log| - 1];
      assert forall i :: 0 <= i < |log| - 1 ==> log[..|log| - 1][i] == log[i];
      if e.tableName != tableName then prev
      else if prev.Some? && prev.value > e.ts then prev
      else Some(e.ts)
  }

  /** With increasing timestamps the latest update of a table is its last log entry. */
  lemma LatestIsLast(log: seq<LogEntry>, e: LogEntry)
    requires Increasing(log + [e])
    ensures LatestUpdate(log + [e], e.tableName) == Some(e.ts)
    ensures forall n | n != e.tableName :: LatestUpdate(log + [e], n) == LatestUpdate(log, n)
  {
    var l := log + [e];
    assert l[..|l| - 1] == log;
    if LatestUpdate(log, e.tableName).Some? {
      assert forall i :: 0 <= i < |log| ==> log[i] == l[i];
    }
  }

  /** Calendar day of a millisecond timestamp (time zones are not modelled). */
  function Day(ts: int): int {
    ts / 86_400_000
  }

  predicate LoggedSince(log: seq<LogEntry>, tableName: string, cutoff: int) {
    exists i :: 0 <= i < |log| && log[i].tableName == tableName && log[i].ts >= cutoff
  }

  /** The first parameter row under a key: SQLite hands rows back in insertion order. */
  function LookupParameter(rows: seq<Parameter>, key: string): (r: Option<real>)
    ensures r.None? <==> forall i :: 0 <= i < |rows| ==> rows[i].key != key
    ensures r.Some? ==> exists i :: 0 <= i < |rows| && rows[i] == Parameter(key, r.value)
                                   && forall j :: 0 <= j < i ==> rows[j].key != key
    decreases |rows|
  {
    if rows == [] then None
    else if rows[0].key == key then Some(rows[0].value)
    else
      var r := LookupParameter(rows[1..], key);
      assert forall i :: 1 <= i < |rows| ==> rows[1..][i - 1] == rows[i];
      r
  }

  /** The rows a dict of parameters becomes, in its iteration order. */
  function ParameterRows(parameters: seq<(string, real)>): (r: seq<Parameter>)
    ensures |r| == |parameters|
    ensures forall i :: 0 <= i < |r| ==> r[i] == Parameter(parameters[i].0, parameters[i].1)
  {
    seq(|parameters|, i requires 0 <= i < |parameters| => Parameter(parameters[i].0, parameters[i].1))
  }

  predicate DistinctKeys(parameters: seq<(string, real)>) {
    forall i, j :: 0 <= i < j < |parameters| ==> parameters[i].0 != parameters[j].0
  }

  /** A parameter stored under a new key is the one read back. */
  lemma {:induction false} LookupAppended(rows: seq<Parameter>, parameters: seq<(string, real)>, k: nat)
    requires DistinctKeys(parameters) && k < |parameters|
    requires LookupParameter(rows, parameters[k].0).None?
    ensures LookupParameter(rows + ParameterRows(parameters), parameters[k].0) == Some(parameters[k].1)
    decreases |rows|
  {
    var key := parameters[k].0;
    var pr := ParameterRows(parameters);
    if rows == [] {
      assert rows + pr == pr;
      LookupInRows(parameters, k);
    } else {
      assert (rows + pr)[1..] == rows[1..] + pr;
      assert rows[0].key != key;
      LookupAppended(rows[1..], parameters, k);
    }
  }

  lemma LookupInRows(parameters: seq<(string, real)>, k: nat)
    requires DistinctKeys(parameters) && k < |parameters|
    ensures LookupParameter(ParameterRows(parameters), parameters[k].0) == Some(parameters[k].1)
  {
    var pr := ParameterRows(parameters);
    var r := LookupParameter(pr, parameters[k].0);
    assert pr[k].key == parameters[k].0;
    var i :| 0 <= i < |pr| && pr[i] == Parameter(parameters[k].0, r.value)
             && forall j :: 0 <= j < i ==> pr[j].key != parameters[k].0;
  }

  class Db {
    const engine: Engine
    var store: Store
    var journal: seq<Op>
    var log: seq<LogEntry>
    var parameters: seq<Parameter>
    var clock: int

    /** The 1 ms pause after every logged update keeps timestamps apart: they increase
        and all lie in the past. */
    predicate Valid()
      reads this
    {
      Increasing(log) && forall i :: 0 <= i < |log| ==> log[i].ts < clock
    }

    /** A fresh database with the meta tables empty. */
    constructor(engine: Engine, now: int)
      ensures Valid()
      ensures this.engine == engine && store == map[] && journal == [] && log == []
      ensures parameters == [] && clock == now
    {
      this.engine := engine;
      store := map[];
      journal := [];
      log := [];
      parameters := [];
      clock := now;
    }

    /** `execute` and, for an `ExecuteMany`, `cursor.executemany`: a failing statement
        changes nothing and its error is raised. */
    method Run1(op: Op) returns (r: Outcome<Error>)
      requires !op.Commit?
      modifies this
      ensures r == (match engine(old(store), op) case Success(_) => Pass case Failure(e) => Fail(e))
      ensures r.Pass? ==> store == engine(old(store), op).value && journal == old(journal) + [op]
      ensures r.Fail? ==> store == old(store) && journal == old(journal)
      ensures log == old(log) && parameters == old(parameters) && clock == old(clock)
    {
      match engine(store, op)
      case Success(s) =>
        store := s;
        journal := journal + [op];
        r := Pass;
      case Failure(e) =>
        r := Fail(e);
    }

    method CommitChanges()
      modifies this
      ensures journal == old(journal) + [Commit]
      ensures store == old(store) && log == old(log) && parameters == old(parameters) && clock == old(clock)
    {
      journal := journal + [Commit];
    }

    /** `count_rows`: selecting from a table that does not exist is an operational error. */
    function CountRows(tableName: string): (r: Result<nat, Error>)
      reads this
      ensures r.Success? <==> tableName in store
      ensures r.Success? ==> r.value == |store[tableName]|
      ensures r.Failure? ==> r.error == NoSuchTableMessage(tableName)
    {
      if tableName in store then Success(|store[tableName]|)
      else Failure(NoSuchTableMessage(tableName))
    }

    /** `DbMeta.set_parameters`: one row per entry, in the dict's order, then a commit. */
    method SetParameters(ps: seq<(string, real)>)
      requires DistinctKeys(ps)
      modifies this
      ensures parameters == old(parameters) + ParameterRows(ps)
      ensures forall k :: 0 <= k < |ps| && LookupParameter(old(parameters), ps[k].0).None? ==>
        GetParameter(ps[k].0) == Success(ps[k].1)
      ensures journal == old(journal) + [Commit]
      ensures store == old(store) && log == old(log) && clock == old(clock)
    {
      var i := 0;
      while i < |ps|
        invariant 0 <= i <= |ps|
        invariant parameters == old(parameters) + ParameterRows(ps[..i])
        invariant store == old(store) && log == old(log) && clock == old(clock) && journal == old(journal)
      {
        assert ParameterRows(ps[..i + 1]) == ParameterRows(ps[..i]) + [Parameter(ps[i].0, ps[i].1)];
        parameters := parameters + [Parameter(ps[i].0, ps[i].1)];
        i := i + 1;
      }
      assert ps[..|ps|] == ps;
      forall k | 0 <= k < |ps| && LookupParameter(old(parameters), ps[k].0).None?
        ensures GetParameter(ps[k].0) == Success(ps[k].1)
      {
        LookupAppended(old(parameters), ps, k);
      }
      CommitChanges();
    }

    /** `DbMeta.get_parameter`: with no row, `fetchone()` gives `None` and subscripting
        it raises. */
    function GetParameter(key: string): (r: Result<real, Error>)
      reads this
      ensures r.Success? <==> LookupParameter(parameters, key).Some?
      ensures r.Success? ==> r.value == LookupParameter(parameters, key).value
    {
      match LookupParameter(parameters, key)
      case Some(v) => Success(v)
      case None => Failure(TypeError("'NoneType' object is not subscriptable"))
    }

    /** `DbMeta.log_table_update`: one entry with the time and the table's row count, then
        the 1 ms pause. */
    method LogTableUpdate(tableName: string) returns (r: Outcome<Error>)
      requires Valid()
      modifies this
      ensures Valid()
      ensures r.Pass? <==> tableName in old(store)
      ensures r.Pass? ==> log == old(log) + [LogEntry(tableName, old(clock), |old(store)[tableName]|)]
                          && clock == old(clock) + 1
      ensures r.Fail? ==> r.error == NoSuchTableMessage(tableName) && log == old(log) && clock == old(clock)
      ensures store == old(store) && journal == old(journal) && parameters == old(parameters)
    {
      match CountRows(tableName)
      case Failure(e) =>
        r := Fail(e);
      case Success(n) =>
        log := log + [LogEntry(tableName, clock, n)];
        clock := clock + 1;
        r := Pass;
    }

    /** A log row written without the pause (the draft updater's own logging). It does
        not keep `Valid()`: a row whose second-precision timestamp repeats an earlier one
        breaks the strictly increasing log. */
    method InsertLogRow(e: LogEntry)
      modifies this
      ensures log == old(log) + [e]
      ensures store == old(store) && journal == old(journal) && parameters == old(parameters) && clock == old(clock)
    {
      log := log + [e];
    }

    /** `DbMeta.last_updated`. */
    function LastUpdated(tableName: string): Option<int>
      reads this
    {
      LatestUpdate(log, tableName)
    }

    /** `DbMeta.was_updated_today`. */
    function WasUpdatedToday(tableName: string): (r: bool)
      reads this
      ensures r <==> LastUpdated(tableName).Some? && Day(LastUpdated(tableName).value) == Day(clock)
    {
      match LastUpdated(tableName)
      case None => false
      case Some(ts) => Day(ts) == Day(clock)
    }

    /** `was_updated_since`, which the client does not define: taken to mean a log entry
        for the table at or after the cutoff. */
    function WasUpdatedSince(tableName: string, cutoff: int): (r: bool)
      reads this
      ensures r <==> LoggedSince(log, tableName, cutoff)
    {
      exists i | 0 <= i < |log| :: log[i].tableName == tableName && log[i].ts >= cutoff
    }
  }

  /** The definition agrees with reading the latest update: updated since a cutoff
      exactly when the latest update is at or after it. */
  lemma WasUpdatedSinceIsLatest(log: seq<LogEntry>, tableName: string, cutoff: int)
    ensures LoggedSince(log, tableName, cutoff)
        <==> LatestUpdate(log, tableName).Some? && LatestUpdate(log, tableName).value >= cutoff
  {
  }

  /** A table never logged was not updated today. */
  lemma NeverLoggedNotToday(db: Db, tableName: string)
    requires forall i :: 0 <= i < |db.log| ==> db.log[i].tableName != tableName
    ensures !db.WasUpdatedToday(tableName)
  {
  }

  /** Logging keeps every earlier entry and puts the new table's latest update at the new
      entry, later than any other table's. */
  lemma LogKeepsHistory(log: seq<LogEntry>, e: LogEntry, clock: int)
    requires Increasing(log) && forall i :: 0 <= i < |log| ==> log[i].ts < clock
    requires e.ts == clock
    ensures Increasing(log + [e])
    ensures LatestUpdate(log + [e], e.tableName) == Some(clock)
    ensures forall n | LatestUpdate(log, n).Some? :: LatestUpdate(log, n).value < clock
  {
    IncreasingSnoc(log, e);
    LatestIsLast(log, e);
    forall n | LatestUpdate(log, n).Some? ensures LatestUpdate(log, n).value < clock {
      var i :| 0 <= i < |log| && log[i].tableName == n && log[i].ts == LatestUpdate(log, n).value;
    }
  }

  lemma IncreasingSnoc(log: seq<LogEntry>, e: LogEntry)
    requires Increasing(log) && forall i :: 0 <= i < |log| ==> log[i].ts < e.ts
    ensures Increasing(log + [e])
  {
    var l := log + [e];
    forall i, j | 0 <= i < j < |l| ensures l[i].ts < l[j].ts {
      assert l[i] == log[i];
      if j < |log| {
        assert l[j] == log[j];
      }
    }
  }
}
