/** `serie_a_db/db/update.py`: `DbUpdater`, which refreshes tables after the tables they
    depend on, at most once per run. The run starts at construction; an update is
    recognised by a log entry at or after that instant. */
module DbUpdate {
  import opened Wrappers
  import opened Exceptions
  import opened Client
  import opened Table

  /** The names of log entries, in log order (`SELECT table_name FROM ft_tables_update`). */
  function LoggedNames(log: seq<LogEntry>): (r: seq<string>)
    ensures |r| == |log| && forall i :: 0 <= i < |log| ==> r[i] == log[i].tableName
  {
    seq(|log|, i requires 0 <= i < |log| => log[i].tableName)
  }

  function TableNames(tables: seq<DbTable>): (r: seq<string>)
    ensures |r| == |tables| && forall i :: 0 <= i < |tables| ==> r[i] == tables[i].name
  {
    seq(|tables|, i requires 0 <= i < |tables| => tables[i].name)
  }

  predicate DistinctNames(tables: seq<DbTable>) {
    forall i, j :: 0 <= i < j < |tables| ==> tables[i].name != tables[j].name
  }

  // ------------------------------------------------- termination of the recursion

  /** `update_table_and_upstream_dependencies` calls itself on every dependency before
      it consults the log, so the call on `name` returns within `fuel` nested calls
      exactly when every chain of dependencies from `name`, read in `deps`, is shorter
      than `fuel`. */
  predicate ReturnsWithin(deps: map<string, set<string>>, name: string, fuel: nat)
    decreases fuel
  {
    fuel > 0 && (name in deps ==> forall d | d in deps[name] :: ReturnsWithin(deps, d, fuel - 1))
  }

  /** As written, two tables that depend on each other make the recursion exceed every
      nesting depth: it has no bound, and CPython ends it with `RecursionError`. */
  lemma {:induction false} CycleNeverReturns(deps: map<string, set<string>>, a: string, b: string, fuel: nat)
    requires a in deps && b in deps && b in deps[a] && a in deps[b]
    ensures !ReturnsWithin(deps, a, fuel) && !ReturnsWithin(deps, b, fuel)
    decreases fuel
  {
    if fuel > 0 {
      CycleNeverReturns(deps, a, b, fuel - 1);
    }
  }

  /** With a rank that every dependency lies below, the call on `name` returns within
      `rank[name] + 1` nested calls. */
  lemma {:induction false} RankedReturns(deps: map<string, set<string>>, rank: map<string, nat>, name: string, fuel: nat)
    requires forall k | k in deps :: k in rank
    requires forall k, d | k in deps && d in deps[k] :: d in deps && rank[d] < rank[k]
    requires name in deps && fuel > rank[name]
    ensures ReturnsWithin(deps, name, fuel)
    decreases fuel
  {
    forall d | d in deps[name]
      ensures ReturnsWithin(deps, d, fuel - 1)
    {
      RankedReturns(deps, rank, d, fuel - 1);
    }
  }

  class DbUpdater {
    const db: Db
    const schema: map<string, DbTable>
    /** The schema's keys in the order the dict was built. */
    const order: seq<string>
    /** `update_start_ts`, fixed once. */
    const updateStartTs: int
    /** A rank below which every dependency lies: the dependency relation is acyclic. */
    ghost const rank: map<string, nat>

    function Deps(k: string): set<string>
      requires k in schema
    {
      DependsOn(schema[k], schema.Keys)
    }

    ghost predicate WellFormed() {
      && (forall k | k in schema :: schema[k].name == k && k in rank)
      && (forall k, d | k in schema && d in Deps(k) :: rank[d] < rank[k])
      && (forall i | 0 <= i < |order| :: order[i] in schema)
      && (forall k | k in schema :: k in order)
      && (forall i, j | 0 <= i < j < |order| :: order[i] != order[j])
    }

    predicate InRun(e: LogEntry) {
      e.ts >= updateStartTs
    }

    /** Every dependency of the table logged at index `i` was logged earlier in the run. */
    predicate DepsLoggedBefore(log: seq<LogEntry>, i: nat)
      requires i < |log| && log[i].tableName in schema
    {
      forall d | d in Deps(log[i].tableName) :: LoggedSince(log[..i], d, updateStartTs)
    }

    /** What every step of a run keeps: a valid log whose entries since the start name
        schema tables, each at most once, each after its dependencies. */
    ghost predicate RunInv()
      reads db
    {
      && db.Valid()
      && updateStartTs <= db.clock
      && (forall i, j :: 0 <= i < j < |db.log| && InRun(db.log[i]) ==> db.log[i].tableName != db.log[j].tableName)
      && (forall i :: 0 <= i < |db.log| && InRun(db.log[i]) ==>
            db.log[i].tableName in schema && DepsLoggedBefore(db.log, i))
    }

    constructor(db: Db, schema: map<string, DbTable>, order: seq<string>, ghost rank: map<string, nat>)
      requires db.Valid()
      ensures this.db == db && this.schema == schema && this.order == order && this.rank == rank
      ensures updateStartTs == db.clock
      ensures RunInv()
    {
      this.db := db;
      this.schema := schema;
      this.order := order;
      this.rank := rank;
      updateStartTs := db.clock;
    }

    /** The entries from index `from` on were written in the run, for tables ranked at
        most `bound`. */
    ghost predicate RankedSince(log: seq<LogEntry>, from: nat, bound: int) {
      forall i | from <= i < |log| :: log[i].tableName in rank && rank[log[i].tableName] <= bound && InRun(log[i])
    }

    /** `update_table_and_upstream_dependencies`: the dependencies first, then the table
        itself unless the run already updated it, then its log entry. */
    method UpdateTableAndUpstreamDependencies(t: DbTable) returns (r: Outcome<Error>)
      requires WellFormed() && RunInv()
      requires t.name in schema && schema[t.name] == t
      modifies db
      ensures RunInv()
      ensures old(db.log) <= db.log && db.parameters == old(db.parameters)
      ensures RankedSince(db.log, |old(db.log)|, rank[t.name])
      ensures r.Pass? ==> db.WasUpdatedSince(t.name, updateStartTs)
      ensures r.Fail? ==> !db.WasUpdatedSince(t.name, updateStartTs) || old(db.WasUpdatedSince(t.name, updateStartTs))
      ensures old(db.WasUpdatedSince(t.name, updateStartTs)) ==>
        r.Pass? && db.log == old(db.log) && db.store == old(db.store) && db.journal == old(db.journal)
      ensures r.Pass? && Deps(t.name) == {} && !old(db.WasUpdatedSince(t.name, updateStartTs)) ==>
        |db.log| == |old(db.log)| + 1 && db.log[|old(db.log)|].tableName == t.name
      decreases rank[t.name], 2
    {
      r := UpdateUpstreamDependencies(t);
      NotLoggedByOthers(t.name, old(db.log));
      if r.Fail? {
        return;
      }
      r := UpdateItselfIfNeeded(t, old(db.log));
    }

    /** Once the dependencies are done: the table itself, unless the run already updated
        it. `start` is the log when the update of `t` began. */
    method UpdateItselfIfNeeded(t: DbTable, ghost start: seq<LogEntry>) returns (r: Outcome<Error>)
      requires WellFormed() && RunInv()
      requires t.name in schema && schema[t.name] == t
      requires start <= db.log && RankedSince(db.log, |start|, rank[t.name] as int - 1)
      requires forall d | d in Deps(t.name) :: db.WasUpdatedSince(d, updateStartTs)
      modifies db
      ensures RunInv()
      ensures old(db.log) <= db.log && db.parameters == old(db.parameters)
      ensures RankedSince(db.log, |start|, rank[t.name])
      ensures r.Pass? <==> db.WasUpdatedSince(t.name, updateStartTs)
      ensures old(db.WasUpdatedSince(t.name, updateStartTs)) ==>
        r.Pass? && db.log == old(db.log) && db.store == old(db.store) && db.journal == old(db.journal)
      ensures r.Pass? && !old(db.WasUpdatedSince(t.name, updateStartTs)) ==>
        |db.log| == |old(db.log)| + 1 && db.log[|old(db.log)|].tableName == t.name
    {
      if db.WasUpdatedSince(t.name, updateStartTs) {
        return Pass;
      }
      ghost var before := db.log;
      r := RefreshAndLog(t);
      if r.Pass? {
        RankedAppend(start, before, db.log, rank[t.name]);
      }
    }

    /** The table itself, once its dependencies are up to date and the run has not
        updated it yet: refresh it, then log the refresh. */
    method RefreshAndLog(t: DbTable) returns (r: Outcome<Error>)
      requires WellFormed() && RunInv()
      requires t.name in schema && schema[t.name] == t
      requires !db.WasUpdatedSince(t.name, updateStartTs)
      requires forall d | d in Deps(t.name) :: db.WasUpdatedSince(d, updateStartTs)
      modifies db
      ensures RunInv()
      ensures db.parameters == old(db.parameters)
      ensures r.Pass? <==> db.WasUpdatedSince(t.name, updateStartTs)
      ensures r.Pass? ==>
        && |db.log| == |old(db.log)| + 1 && db.log[..|old(db.log)|] == old(db.log)
        && db.log[|old(db.log)|].tableName == t.name && InRun(db.log[|old(db.log)|])
      ensures r.Fail? ==> db.log == old(db.log)
    {
      r := Update(t, db);
      if r.Fail? {
        return;
      }
      ghost var before := db.log;
      r := db.LogTableUpdate(t.name);
      if r.Pass? {
        LogPreservesRunInv(before, t.name);
        assert db.log[|before|].tableName == t.name;
      }
    }

    /** The loop over `table.depends_on`, in the set's order, which is left open. */
    method UpdateUpstreamDependencies(t: DbTable) returns (r: Outcome<Error>)
      requires WellFormed() && RunInv()
      requires t.name in schema && schema[t.name] == t
      modifies db
      ensures RunInv()
      ensures old(db.log) <= db.log && db.parameters == old(db.parameters)
      ensures RankedSince(db.log, |old(db.log)|, rank[t.name] as int - 1)
      ensures r.Pass? ==> forall d | d in Deps(t.name) :: db.WasUpdatedSince(d, updateStartTs)
      ensures old(db.WasUpdatedSince(t.name, updateStartTs)) || Deps(t.name) == {} ==>
        r.Pass? && db.log == old(db.log) && db.store == old(db.store) && db.journal == old(db.journal)
      decreases rank[t.name], 1
    {
      var deps := DependsOn(t, schema.Keys);
      var todo := deps;
      ghost var log0, store0, journal0, parameters0 := db.log, db.store, db.journal, db.parameters;
      ghost var skip := db.WasUpdatedSince(t.name, updateStartTs);
      if skip {
        DepsOfLoggedAreLogged(t.name);
      }
      DepsLoopStart(t, deps, skip);
      r := Pass;
      while todo != {}
        invariant DepsLoopInv(t, deps, todo, skip, log0, store0, journal0, parameters0)
        decreases |todo|
      {
        var d :| d in todo;
        r := UpdateNextDependency(t, deps, todo, d, skip, log0, store0, journal0, parameters0);
        if r.Fail? {
          return;
        }
        todo := todo - {d};
      }
      DepsLoopEnd(t, deps, skip, log0, store0, journal0, parameters0);
      r := Pass;
    }

    /** Before the loop over the dependencies of `t` nothing is done and nothing changed. */
    lemma DepsLoopStart(t: DbTable, deps: set<string>, skip: bool)
      requires WellFormed() && RunInv() && t.name in schema && deps == Deps(t.name)
      requires skip ==> forall d | d in deps :: db.WasUpdatedSince(d, updateStartTs)
      ensures DepsLoopInv(t, deps, deps, skip, db.log, db.store, db.journal, db.parameters)
    {
    }

    /** After that loop every dependency is logged, and nothing changed if the table was
        already updated or has no dependency. */
    lemma DepsLoopEnd(
      t: DbTable, deps: set<string>, skip: bool,
      log0: seq<LogEntry>, store0: Store, journal0: seq<Op>, parameters0: seq<Parameter>)
      requires DepsLoopInv(t, deps, {}, skip, log0, store0, journal0, parameters0)
      ensures RunInv() && log0 <= db.log && db.parameters == parameters0
      ensures RankedSince(db.log, |log0|, rank[t.name] as int - 1)
      ensures forall d | d in deps :: db.WasUpdatedSince(d, updateStartTs)
      ensures skip || deps == {} ==> db.log == log0 && db.store == store0 && db.journal == journal0
    {
    }

    /** What holds between passes of the loop over the dependencies of `t`: the ones done
        are logged, and nothing changed while the table was already updated or no
        dependency was handled. */
    ghost predicate DepsLoopInv(
      t: DbTable, deps: set<string>, todo: set<string>, skip: bool,
      log0: seq<LogEntry>, store0: Store, journal0: seq<Op>, parameters0: seq<Parameter>)
      reads db
    {
      && t.name in schema && t.name in rank
      && todo <= deps
      && RunInv()
      && log0 <= db.log && db.parameters == parameters0
      && RankedSince(db.log, |log0|, rank[t.name] as int - 1)
      && (forall d | d in deps && d !in todo :: LoggedSince(db.log, d, updateStartTs))
      && (skip ==> forall d | d in deps :: LoggedSince(db.log, d, updateStartTs))
      && (skip || todo == deps ==> db.log == log0 && db.store == store0 && db.journal == journal0)
    }

    /** The body of that loop, for the dependency `d` still to do. */
    method UpdateNextDependency(
      t: DbTable, deps: set<string>, todo: set<string>, d: string, ghost skip: bool,
      ghost log0: seq<LogEntry>, ghost store0: Store, ghost journal0: seq<Op>, ghost parameters0: seq<Parameter>)
      returns (r: Outcome<Error>)
      requires WellFormed() && t.name in schema
      requires deps == Deps(t.name) && d in todo
      requires DepsLoopInv(t, deps, todo, skip, log0, store0, journal0, parameters0)
      modifies db
      ensures r.Pass? ==> DepsLoopInv(t, deps, todo - {d}, skip, log0, store0, journal0, parameters0)
      ensures r.Fail? ==>
        && !skip && RunInv() && log0 <= db.log && db.parameters == parameters0
        && RankedSince(db.log, |log0|, rank[t.name] as int - 1)
      decreases rank[t.name], 0
    {
      r := UpdateDependency(d, |log0|, rank[t.name] as int - 1);
    }

    /** One pass of that loop: the dependency `d` and its own upstream tables. */
    method UpdateDependency(d: string, ghost from: nat, ghost bound: int) returns (r: Outcome<Error>)
      requires WellFormed() && RunInv()
      requires d in schema && rank[d] <= bound
      requires from <= |db.log| && RankedSince(db.log, from, bound)
      modifies db
      ensures RunInv()
      ensures old(db.log) <= db.log && db.parameters == old(db.parameters)
      ensures RankedSince(db.log, from, bound)
      ensures forall n | LoggedSince(old(db.log), n, updateStartTs) :: LoggedSince(db.log, n, updateStartTs)
      ensures r.Pass? ==> LoggedSince(db.log, d, updateStartTs)
      ensures LoggedSince(old(db.log), d, updateStartTs) ==>
        r.Pass? && db.log == old(db.log) && db.store == old(db.store) && db.journal == old(db.journal)
      decreases rank[d], 3
    {
      ghost var before := db.log;
      r := UpdateTableAndUpstreamDependencies(schema[d]);
      RankedAppend(before[..from], before, db.log, bound);
      LoggedSinceGrows(before, db.log);
    }

    /** The tables have no dependencies and were not updated yet in the run. */
    predicate Untouched(tables: seq<DbTable>, log: seq<LogEntry>)
      requires forall t | t in tables :: t.name in schema
    {
      forall i :: 0 <= i < |tables| ==> Deps(tables[i].name) == {} && !LoggedSince(log, tables[i].name, updateStartTs)
    }

    /** `update_tables`: every table in the given order. */
    method UpdateTables(tables: seq<DbTable>) returns (r: Outcome<Error>)
      requires WellFormed() && RunInv()
      requires forall t | t in tables :: t.name in schema && schema[t.name] == t
      modifies db
      ensures RunInv()
      ensures old(db.log) <= db.log && db.parameters == old(db.parameters)
      ensures r.Pass? ==> forall t | t in tables :: LoggedSince(db.log, t.name, updateStartTs)
      ensures r.Pass? && Untouched(tables, old(db.log)) && DistinctNames(tables) ==>
        LoggedNames(db.log[|old(db.log)|..]) == TableNames(tables)
    {
      ghost var clean := Untouched(tables, db.log) && DistinctNames(tables);
      ghost var log0, parameters0 := db.log, db.parameters;
      var i := 0;
      r := Pass;
      while i < |tables|
        invariant i <= |tables|
        invariant TablesLoopInv(tables, i, clean, log0, parameters0)
      {
        r := UpdateNextTable(tables, i, clean, log0, parameters0);
        if r.Fail? {
          return;
        }
        i := i + 1;
      }
      assert tables[..|tables|] == tables;
    }

    /** What holds after the first `i` tables: each is logged in the run, and, when every
        table was new and without dependencies, the run logged exactly them, in order. */
    ghost predicate TablesLoopInv(tables: seq<DbTable>, i: nat, clean: bool, log0: seq<LogEntry>, parameters0: seq<Parameter>)
      reads db
    {
      && i <= |tables|
      && RunInv()
      && log0 <= db.log && db.parameters == parameters0
      && (forall k :: 0 <= k < i ==> LoggedSince(db.log, tables[k].name, updateStartTs))
      && (clean ==> LoggedNames(db.log[|log0|..]) == TableNames(tables[..i]))
      && (clean ==> forall k :: i <= k < |tables| ==> !LoggedSince(db.log, tables[k].name, updateStartTs))
    }

    /** The body of that loop, for the table at index `i`. */
    method UpdateNextTable(tables: seq<DbTable>, i: nat, ghost clean: bool, ghost log0: seq<LogEntry>, ghost parameters0: seq<Parameter>)
      returns (r: Outcome<Error>)
      requires WellFormed()
      requires forall t | t in tables :: t.name in schema && schema[t.name] == t
      requires i < |tables|
      requires clean ==> Untouched(tables, log0) && DistinctNames(tables)
      requires TablesLoopInv(tables, i, clean, log0, parameters0)
      modifies db
      ensures r.Pass? ==> TablesLoopInv(tables, i + 1, clean, log0, parameters0)
      ensures r.Fail? ==> RunInv() && log0 <= db.log && db.parameters == parameters0
    {
      assert tables[i] in tables;
      ghost var before := db.log;
      r := UpdateOne(tables[i]);
      if r.Pass? {
        forall k | 0 <= k < i + 1
          ensures LoggedSince(db.log, tables[k].name, updateStartTs)
        {
          if k < i {
            assert LoggedSince(before, tables[k].name, updateStartTs);
          }
        }
        if clean {
          NamesStep(log0, before, db.log, tables, i);
        }
      }
    }

    /** One pass of that loop. */
    method UpdateOne(t: DbTable) returns (r: Outcome<Error>)
      requires WellFormed() && RunInv()
      requires t.name in schema && schema[t.name] == t
      modifies db
      ensures RunInv()
      ensures old(db.log) <= db.log && db.parameters == old(db.parameters)
      ensures forall n | LoggedSince(old(db.log), n, updateStartTs) :: LoggedSince(db.log, n, updateStartTs)
      ensures r.Pass? ==> LoggedSince(db.log, t.name, updateStartTs)
      ensures r.Pass? && Deps(t.name) == {} && !LoggedSince(old(db.log), t.name, updateStartTs) ==>
        |db.log| == |old(db.log)| + 1 && db.log[..|old(db.log)|] == old(db.log) && db.log[|old(db.log)|].tableName == t.name
    {
      ghost var before := db.log;
      r := UpdateTableAndUpstreamDependencies(t);
      LoggedSinceGrows(before, db.log);
    }

    /** `update_all_tables`: the whole schema, in its order. */
    method UpdateAllTables() returns (r: Outcome<Error>)
      requires WellFormed() && RunInv()
      modifies db
      ensures RunInv()
      ensures old(db.log) <= db.log && db.parameters == old(db.parameters)
      ensures r.Pass? ==> forall k | k in schema :: LoggedSince(db.log, k, updateStartTs)
    {
      var tables := seq(|order|, i requires 0 <= i < |order| => schema[order[i]]);
      r := UpdateTables(tables);
      if r.Pass? {
        forall k | k in schema ensures LoggedSince(db.log, k, updateStartTs) {
          var i :| 0 <= i < |order| && order[i] == k;
          assert tables[i] in tables;
        }
      }
    }

    // -------------------------------------------------------------- run invariant

    /** A table logged in the run has all its dependencies logged in the run. */
    lemma DepsOfLoggedAreLogged(k: string)
      requires WellFormed() && RunInv() && k in schema
      requires db.WasUpdatedSince(k, updateStartTs)
      ensures forall d | d in Deps(k) :: db.WasUpdatedSince(d, updateStartTs)
    {
      var i :| 0 <= i < |db.log| && db.log[i].tableName == k && db.log[i].ts >= updateStartTs;
      assert DepsLoggedBefore(db.log, i);
      forall d | d in Deps(k) ensures db.WasUpdatedSince(d, updateStartTs) {
        var j :| 0 <= j < i && db.log[..i][j].tableName == d && db.log[..i][j].ts >= updateStartTs;
        assert db.log[j] == db.log[..i][j];
      }
    }

    lemma RankedAppend(a: seq<LogEntry>, b: seq<LogEntry>, c: seq<LogEntry>, bound: int)
      requires a <= b <= c
      requires RankedSince(b, |a|, bound)
      requires forall i | |b| <= i < |c| :: c[i].tableName in rank && rank[c[i].tableName] <= bound && InRun(c[i])
      ensures RankedSince(c, |a|, bound)
    {
      forall i | |a| <= i < |b| ensures c[i] == b[i] { }
    }

    /** A table logged once more after `tables[..i]`, itself the next table, extends the
        run's names by that table, and leaves the remaining tables unlogged. */
    lemma NamesStep(base: seq<LogEntry>, before: seq<LogEntry>, log: seq<LogEntry>, tables: seq<DbTable>, i: nat)
      requires base <= before && i < |tables|
      requires |log| == |before| + 1 && log[..|before|] == before && log[|before|].tableName == tables[i].name
      requires LoggedNames(before[|base|..]) == TableNames(tables[..i])
      requires DistinctNames(tables)
      requires forall k :: i <= k < |tables| ==> !LoggedSince(before, tables[k].name, updateStartTs)
      ensures LoggedNames(log[|base|..]) == TableNames(tables[..i + 1])
      ensures forall k :: i + 1 <= k < |tables| ==> !LoggedSince(log, tables[k].name, updateStartTs)
    {
      assert log == before + [log[|before|]];
      assert log[|base|..] == before[|base|..] + [log[|before|]];
      assert TableNames(tables[..i + 1]) == TableNames(tables[..i]) + [tables[i].name];
      forall k | i + 1 <= k < |tables| ensures !LoggedSince(log, tables[k].name, updateStartTs) {
        assert !LoggedSince(before, tables[k].name, updateStartTs);
      }
    }

    lemma LoggedSinceGrows(a: seq<LogEntry>, b: seq<LogEntry>)
      requires a <= b
      ensures forall n | LoggedSince(a, n, updateStartTs) :: LoggedSince(b, n, updateStartTs)
    {
      forall n | LoggedSince(a, n, updateStartTs) ensures LoggedSince(b, n, updateStartTs) {
        var i :| 0 <= i < |a| && a[i].tableName == n && a[i].ts >= updateStartTs;
        assert b[i] == a[i];
      }
    }

    /** Entries ranked below a table's rank never name it. */
    lemma NotLoggedByOthers(k: string, before: seq<LogEntry>)
      requires k in rank && before <= db.log
      requires forall i | |before| <= i < |db.log| :: db.log[i].tableName in rank && rank[db.log[i].tableName] < rank[k]
      ensures LoggedSince(db.log, k, updateStartTs) <==> LoggedSince(before, k, updateStartTs)
    {
      LoggedSinceGrows(before, db.log);
      if LoggedSince(db.log, k, updateStartTs) {
        var i :| 0 <= i < |db.log| && db.log[i].tableName == k && db.log[i].ts >= updateStartTs;
        assert i < |before|;
        assert before[i] == db.log[i];
      }
    }

    /** Logging a table not yet logged in the run, after all its dependencies, keeps the
        run invariant. */
    lemma LogPreservesRunInv(before: seq<LogEntry>, k: string)
      requires WellFormed() && k in schema
      requires db.Valid() && updateStartTs <= db.clock
      requires |db.log| == |before| + 1 && db.log[..|before|] == before && db.log[|before|].tableName == k
      requires InRun(db.log[|before|])
      requires !LoggedSince(before, k, updateStartTs)
      requires forall d | d in Deps(k) :: LoggedSince(before, d, updateStartTs)
      requires forall i, j :: 0 <= i < j < |before| && InRun(before[i]) ==> before[i].tableName != before[j].tableName
      requires forall i :: 0 <= i < |before| && InRun(before[i]) ==>
            before[i].tableName in schema && DepsLoggedBefore(before, i)
      ensures RunInv()
    {
      var log := db.log;
      var n := |before|;
      forall i, j | 0 <= i < j < |log| && InRun(log[i]) ensures log[i].tableName != log[j].tableName {
        assert log[i] == before[i];
        if j < n {
          assert log[j] == before[j];
        }
      }
      forall i | 0 <= i < |log| && InRun(log[i]) ensures log[i].tableName in schema && DepsLoggedBefore(log, i) {
        if i < n {
          assert log[i] == before[i];
          assert log[..i] == before[..i];
          assert DepsLoggedBefore(before, i);
        } else {
          assert log[..i] == before;
        }
      }
    }

    /** A dependent's latest update is later than each of its dependencies' when it was
        updated in the run. */
    lemma DependentLoggedAfterSource(k: string, d: string)
      requires WellFormed() && RunInv() && k in schema && d in Deps(k)
      requires db.WasUpdatedSince(k, updateStartTs)
      ensures db.LastUpdated(d).Some? && db.LastUpdated(k).Some?
      ensures db.LastUpdated(d).value < db.LastUpdated(k).value
    {
      var log := db.log;
      var i :| 0 <= i < |log| && log[i].tableName == k && log[i].ts >= updateStartTs;
      assert DepsLoggedBefore(log, i);
      var j :| 0 <= j < i && log[..i][j].tableName == d && log[..i][j].ts >= updateStartTs;
      assert log[j] == log[..i][j];
      var m := LatestUpdate(log, d).value;
      var jm :| 0 <= jm < |log| && log[jm].tableName == d && log[jm].ts == m;
      assert jm < i;
    }

    // ------------------------------------------------------------------ termination

    /** The dependencies of every table of the schema, as `depends_on` computes them. */
    function DepGraph(): (g: map<string, set<string>>)
      ensures g.Keys == schema.Keys && forall k | k in schema :: g[k] == Deps(k)
    {
      map k | k in schema :: Deps(k)
    }

    /** A well-formed schema is acyclic, so the source's recursion returns on every table. */
    lemma WellFormedReturns(k: string)
      requires WellFormed() && k in schema
      ensures ReturnsWithin(DepGraph(), k, rank[k] + 1)
    {
      RankedReturns(DepGraph(), rank, k, rank[k] + 1);
    }
  }
}
