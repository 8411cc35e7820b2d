/** `st_player_cross_source_mapping.py`: pair the players of one source (fm) with those
    of the other (fpi), team by team.

    A pool is a Python `set[PlayerRecord]` whose hash is the code and whose `==`
    compares name and role, so two records are the same set element exactly when
    code, name and role all agree. A pool is therefore modelled as a duplicate-free
    sequence of records, in the order the set happens to be iterated; every property
    below holds for every such order. */
module PlayerMapping {
  import opened Wrappers
  import opened Exceptions
  import opened PyStr
  import opened SharedDefinitions

  datatype PlayerRecord = PlayerRecord(code: int, name: string, role: PlayerRole)

  /** `PlayerRecord.__eq__`: the code plays no part. */
  predicate SameNameAndRole(a: PlayerRecord, b: PlayerRecord) {
    a.name == b.name && a.role == b.role
  }

  /** `PlayerMapping`: one matched pair, by its two codes. */
  datatype Mapping = Mapping(seasonId: string, codeFpi: int, codeFm: int)

  /** A row of `st_<source>_player`: code, name, team id and role value. */
  datatype RawRecord = RawRecord(code: int, name: string, teamId: string, role: string)

  predicate NoDuplicates<T(==)>(s: seq<T>) {
    forall i, j | 0 <= i < j < |s| :: s[i] != s[j]
  }

  /** `set.remove` on an element that is present, keeping the order of the rest. */
  function Remove(s: seq<PlayerRecord>, x: PlayerRecord): (r: seq<PlayerRecord>)
    ensures forall y :: y in r <==> y in s && y != x
    ensures NoDuplicates(s) ==> NoDuplicates(r)
  {
    if s == [] then []
    else if s[0] == x then Remove(s[1..], x)
    else
      var rest := Remove(s[1..], x);
      assert NoDuplicates(s) ==> NoDuplicates(s[1..]) && s[0] !in s[1..];
      [s[0]] + rest
  }

  // ------------------------------------------------------------------ pools

  /** `dict[str, set[PlayerRecord]]`: the team ids in insertion order, and a pool each. */
  datatype Pools = Pools(teams: seq<string>, pool: map<string, seq<PlayerRecord>>)

  predicate WellFormed(p: Pools) {
    && NoDuplicates(p.teams)
    && (forall t | t in p.pool :: t in p.teams)
    && (forall t | t in p.teams :: t in p.pool)
    && (forall t | t in p.pool :: NoDuplicates(p.pool[t]))
  }

  /** The pool of a team, empty for a team the map lacks. */
  function PoolOf(pool: map<string, seq<PlayerRecord>>, team: string): seq<PlayerRecord> {
    if team in pool then pool[team] else []
  }

  /** The record `_structure` builds from a row, before validation. */
  function RecordOf(raw: RawRecord, role: PlayerRole): PlayerRecord {
    PlayerRecord(raw.code, Lower(raw.name), role)
  }

  /** `PlayerRecord(...)`: the code must be a positive integer and the role a member
      of `PlayerRole`. */
  function ValidateRecord(raw: RawRecord): (r: Result<PlayerRecord, Error>)
    ensures r.Success? <==> raw.code > 0 && ParseRole(raw.role).Success?
    ensures r.Success? ==> r.value == RecordOf(raw, ParseRole(raw.role).value)
    ensures r.Failure? ==> r.error.ValidationError?
  {
    if raw.code <= 0 then Failure(ValidationError("code must be a positive integer"))
    else
      var role :- ParseRole(raw.role);
      Success(RecordOf(raw, role))
  }

  /** `output[team].add(rec)`, creating the team's pool on first sight. */
  function AddToPools(p: Pools, team: string, rec: PlayerRecord): Pools {
    if team in p.pool then
      Pools(p.teams, p.pool[team := if rec in p.pool[team] then p.pool[team] else p.pool[team] + [rec]])
    else
      Pools(p.teams + [team], p.pool[team := [rec]])
  }

  predicate AllValid(raw: seq<RawRecord>) {
    ValidUpTo(raw, |raw|)
  }

  predicate ValidUpTo(raw: seq<RawRecord>, n: nat)
    requires n <= |raw|
  {
    forall i | 0 <= i < n :: ValidateRecord(raw[i]).Success?
  }

  /** The record of each of the first `n` rows is in its team's pool. */
  predicate Covers(raw: seq<RawRecord>, n: nat, p: Pools)
    requires n <= |raw| && ValidUpTo(raw, n)
  {
    forall i | 0 <= i < n ::
      raw[i].teamId in p.pool && ValidateRecord(raw[i]).value in p.pool[raw[i].teamId]
  }

  /** Every pooled record is the record of one of the first `n` rows of that team. */
  predicate FromRows(raw: seq<RawRecord>, n: nat, p: Pools)
    requires n <= |raw| && ValidUpTo(raw, n)
  {
    forall t, x | t in p.pool && x in p.pool[t] ::
      exists i :: 0 <= i < n && raw[i].teamId == t && ValidateRecord(raw[i]).value == x
  }

  /** Every valid row's record is in its team's pool, and every pooled record comes
      from a row of that team. */
  predicate Grouped(raw: seq<RawRecord>, p: Pools)
    requires AllValid(raw)
  {
    Covers(raw, |raw|, p) && FromRows(raw, |raw|, p)
  }

  lemma AddKeepsWellFormed(p: Pools, team: string, rec: PlayerRecord)
    requires WellFormed(p)
    ensures WellFormed(AddToPools(p, team, rec))
  {
    if team in p.pool && rec !in p.pool[team] {
      var s := p.pool[team];
      assert forall a | 0 <= a < |s| :: (s + [rec])[a] == s[a];
    }
  }

  lemma AddKeepsCovers(raw: seq<RawRecord>, n: nat, p: Pools)
    requires n < |raw| && ValidUpTo(raw, n + 1) && Covers(raw, n, p)
    ensures Covers(raw, n + 1, AddToPools(p, raw[n].teamId, ValidateRecord(raw[n]).value))
  {
  }

  lemma AddKeepsFromRows(raw: seq<RawRecord>, n: nat, p: Pools)
    requires n < |raw| && ValidUpTo(raw, n + 1) && FromRows(raw, n, p)
    ensures FromRows(raw, n + 1, AddToPools(p, raw[n].teamId, ValidateRecord(raw[n]).value))
  {
    var rec := ValidateRecord(raw[n]).value;
    var q := AddToPools(p, raw[n].teamId, rec);
    forall t, x | t in q.pool && x in q.pool[t]
      ensures exists i :: 0 <= i < n + 1 && raw[i].teamId == t && ValidateRecord(raw[i]).value == x
    {
      if t == raw[n].teamId && x == rec {
        assert raw[n].teamId == t && ValidateRecord(raw[n]).value == x;
      } else {
        assert t in p.pool && x in p.pool[t];
      }
    }
  }

  /** `_structure`: group the rows by team, lower-casing names; the first row that
      does not validate raises. */
  method Structure(raw: seq<RawRecord>) returns (r: Result<Pools, Error>)
    ensures r.Success? <==> AllValid(raw)
    ensures r.Failure? ==> r.error.ValidationError?
    ensures r.Success? ==> WellFormed(r.value) && Grouped(raw, r.value)
  {
    var output := Pools([], map[]);
    var i := 0;
    while i < |raw|
      invariant 0 <= i <= |raw|
      invariant ValidUpTo(raw, i)
      invariant WellFormed(output) && Covers(raw, i, output) && FromRows(raw, i, output)
    {
      var rec := ValidateRecord(raw[i]);
      if rec.Failure? {
        return Failure(rec.error);
      }
      AddKeepsWellFormed(output, raw[i].teamId, rec.value);
      AddKeepsCovers(raw, i, output);
      AddKeepsFromRows(raw, i, output);
      output := AddToPools(output, raw[i].teamId, rec.value);
      i := i + 1;
    }
    r := Success(output);
  }

  /** Every pooled name is lower case. */
  lemma StructuredNamesAreLowerCase(raw: seq<RawRecord>, p: Pools, t: string, x: PlayerRecord)
    requires AllValid(raw) && Grouped(raw, p)
    requires t in p.pool && x in p.pool[t]
    ensures exists i :: 0 <= i < |raw| && raw[i].teamId == t && x.name == Lower(raw[i].name) && x.code == raw[i].code
  {
    var i :| 0 <= i < |raw| && raw[i].teamId == t && ValidateRecord(raw[i]).value == x;
    assert x.name == Lower(raw[i].name);
  }

  // --------------------------------------------------------------- matching

  /** The test of pass 1 (`player_fm == player_fpi`) or of pass 2 (same name). */
  predicate Matches(byRole: bool, f: PlayerRecord, p: PlayerRecord) {
    if byRole then SameNameAndRole(f, p) else f.name == p.name
  }

  datatype Pair = Pair(fm: PlayerRecord, fpi: PlayerRecord)

  function FmSide(pairs: seq<Pair>): (r: seq<PlayerRecord>)
    ensures |r| == |pairs| && forall k | 0 <= k < |pairs| :: r[k] == pairs[k].fm
  {
    seq(|pairs|, k requires 0 <= k < |pairs| => pairs[k].fm)
  }

  function FpiSide(pairs: seq<Pair>): (r: seq<PlayerRecord>)
    ensures |r| == |pairs| && forall k | 0 <= k < |pairs| :: r[k] == pairs[k].fpi
  {
    seq(|pairs|, k requires 0 <= k < |pairs| => pairs[k].fpi)
  }

  /** The result of one pass over one team: `pairs` is a one-to-one set of matching
      pairs drawn from the two pools, the leftovers are the pools less the paired
      players, and no leftover fm player matches a leftover fpi player. */
  predicate TeamMatching(fm: seq<PlayerRecord>, fpi: seq<PlayerRecord>, byRole: bool,
                         pairs: seq<Pair>, fmLeft: seq<PlayerRecord>, fpiLeft: seq<PlayerRecord>)
  {
    && (forall k | 0 <= k < |pairs| ::
          pairs[k].fm in fm && pairs[k].fpi in fpi && Matches(byRole, pairs[k].fm, pairs[k].fpi))
    && NoDuplicates(FmSide(pairs)) && NoDuplicates(FpiSide(pairs))
    && (forall f | f in fmLeft :: f in fm && f !in FmSide(pairs))
    && (forall f | f in fm && f !in FmSide(pairs) :: f in fmLeft)
    && (forall p | p in fpiLeft :: p in fpi && p !in FpiSide(pairs))
    && (forall p | p in fpi && p !in FpiSide(pairs) :: p in fpiLeft)
    && NoDuplicates(fmLeft) && NoDuplicates(fpiLeft)
    && (forall f, p | f in fmLeft && p in fpiLeft :: !Matches(byRole, f, p))
  }

  /** The inner loop of a pass, stopping at the first match: the first player of the
      pool, in iteration order, that matches `f`. */
  method FindPartner(f: PlayerRecord, pool: seq<PlayerRecord>, byRole: bool)
    returns (r: Option<PlayerRecord>)
    ensures r.None? <==> forall p | p in pool :: !Matches(byRole, f, p)
    ensures r.Some? ==>
      exists j :: 0 <= j < |pool| && pool[j] == r.value && Matches(byRole, f, pool[j])
        && forall k | 0 <= k < j :: !Matches(byRole, f, pool[k])
  {
    var j := 0;
    while j < |pool|
      invariant 0 <= j <= |pool|
      invariant forall k | 0 <= k < j :: !Matches(byRole, f, pool[k])
    {
      if Matches(byRole, f, pool[j]) {
        return Some(pool[j]);
      }
      j := j + 1;
    }
    return None;
  }

  /** How many players of `pool` match `f`. */
  function CountMatches(byRole: bool, f: PlayerRecord, pool: seq<PlayerRecord>): nat {
    if pool == [] then 0
    else
      var last := if Matches(byRole, f, pool[|pool| - 1]) then 1 else 0;
      CountMatches(byRole, f, pool[..|pool| - 1]) + last
  }

  lemma {:induction false} NoMatchCountsZero(byRole: bool, f: PlayerRecord, pool: seq<PlayerRecord>)
    ensures CountMatches(byRole, f, pool) == 0 <==> forall p | p in pool :: !Matches(byRole, f, p)
    decreases |pool|
  {
    if pool != [] {
      var init := pool[..|pool| - 1];
      NoMatchCountsZero(byRole, f, init);
      assert pool == init + [pool[|pool| - 1]];
    }
  }

  /** The inner loop of a pass as written: it goes on scanning after a match, and
      a second match removes `player_fm` from its pool a second time. Python's
      `KeyError` carries the missing `PlayerRecord` itself; here its key is reduced to
      the record's name. */
  method ScanAsWritten(f: PlayerRecord, fmPool: seq<PlayerRecord>, fpiPool: seq<PlayerRecord>, byRole: bool)
    returns (r: Result<seq<Pair>, Error>)
    requires f in fmPool && NoDuplicates(fmPool)
    ensures r.Success? <==> CountMatches(byRole, f, fpiPool) <= 1
    ensures r.Failure? ==> r.error == KeyError(f.name)
    ensures r.Success? ==> |r.value| == CountMatches(byRole, f, fpiPool)
    ensures r.Success? ==>
      forall k | 0 <= k < |r.value| ::
        r.value[k].fm == f && r.value[k].fpi in fpiPool && Matches(byRole, f, r.value[k].fpi)
  {
    var pairs: seq<Pair> := [];
    var fmCur := fmPool;
    var fpiCur := fpiPool;
    var j := 0;
    while j < |fpiPool|
      invariant 0 <= j <= |fpiPool|
      invariant |pairs| == CountMatches(byRole, f, fpiPool[..j]) <= 1
      invariant f in fmCur <==> pairs == []
      invariant forall k | 0 <= k < |pairs| ::
        pairs[k].fm == f && pairs[k].fpi in fpiPool && Matches(byRole, f, pairs[k].fpi)
    {
      var p := fpiPool[j];
      assert fpiPool[..j + 1][..j] == fpiPool[..j];
      if Matches(byRole, f, p) {
        pairs := pairs + [Pair(f, p)];
        fpiCur := Remove(fpiCur, p);
        if f !in fmCur {
          CountFromPrefix(byRole, f, fpiPool, j + 1);
          return Failure(KeyError(f.name));
        }
        fmCur := Remove(fmCur, f);
      }
      j := j + 1;
    }
    assert fpiPool[..j] == fpiPool;
    r := Success(pairs);
  }

  /** Counts never shrink as the pool grows. */
  lemma {:induction false} CountFromPrefix(byRole: bool, f: PlayerRecord, pool: seq<PlayerRecord>, j: nat)
    requires j <= |pool|
    ensures CountMatches(byRole, f, pool[..j]) <= CountMatches(byRole, f, pool)
    decreases |pool| - j
  {
    if j < |pool| {
      CountFromPrefix(byRole, f, pool, j + 1);
      assert pool[..j + 1][..j] == pool[..j];
    } else {
      assert pool[..j] == pool;
    }
  }

  /** A pool holding two namesakes of the same role, with different codes: legal
      input, which the scan as written turns into a `KeyError`. */
  lemma HomonymsInOnePool()
    ensures var f := PlayerRecord(3, "foo", Attacker);
      var pool := [PlayerRecord(1, "foo", Attacker), PlayerRecord(2, "foo", Attacker)];
      && NoDuplicates(pool) && CountMatches(true, f, pool) == 2 && CountMatches(false, f, pool) == 2
  {
    var pool := [PlayerRecord(1, "foo", Attacker), PlayerRecord(2, "foo", Attacker)];
    assert pool[..1] == [PlayerRecord(1, "foo", Attacker)];
    assert pool[..1][..0] == [];
  }

  /** One pass over one team, with the scan stopping at the first match. */
  method MatchTeam(fm: seq<PlayerRecord>, fpi: seq<PlayerRecord>, byRole: bool)
    returns (pairs: seq<Pair>, fmLeft: seq<PlayerRecord>, fpiLeft: seq<PlayerRecord>)
    requires NoDuplicates(fm) && NoDuplicates(fpi)
    ensures TeamMatching(fm, fpi, byRole, pairs, fmLeft, fpiLeft)
  {
    pairs, fmLeft, fpiLeft := [], fm, fpi;
    var i := 0;
    while i < |fm|
      invariant 0 <= i <= |fm|
      invariant forall k | 0 <= k < |pairs| ::
        pairs[k].fm in fm[..i] && pairs[k].fpi in fpi && Matches(byRole, pairs[k].fm, pairs[k].fpi)
      invariant NoDuplicates(FmSide(pairs)) && NoDuplicates(FpiSide(pairs))
      invariant forall f :: f in fmLeft <==> f in fm && f !in FmSide(pairs)
      invariant forall p :: p in fpiLeft <==> p in fpi && p !in FpiSide(pairs)
      invariant NoDuplicates(fmLeft) && NoDuplicates(fpiLeft)
      invariant forall f, p | f in fm[..i] && f in fmLeft && p in fpiLeft :: !Matches(byRole, f, p)
    {
      var f := fm[i];
      assert fm[..i + 1] == fm[..i] + [f];
      NotYetPaired(fm, i, pairs);
      var partner := FindPartner(f, fpiLeft, byRole);
      if partner.Some? {
        var p := partner.value;
        PairAppend(pairs, Pair(f, p));
        pairs := pairs + [Pair(f, p)];
        fpiLeft := Remove(fpiLeft, p);
        fmLeft := Remove(fmLeft, f);
      }
      i := i + 1;
    }
    assert fm[..i] == fm;
  }

  /** The players paired so far come before `fm[i]`, so `fm[i]` is not among them. */
  lemma NotYetPaired(fm: seq<PlayerRecord>, i: nat, pairs: seq<Pair>)
    requires NoDuplicates(fm) && i < |fm|
    requires forall k | 0 <= k < |pairs| :: pairs[k].fm in fm[..i]
    ensures fm[i] !in FmSide(pairs)
  {
    forall k | 0 <= k < |pairs|
      ensures FmSide(pairs)[k] != fm[i]
    {
      assert pairs[k].fm in fm[..i];
      var j :| 0 <= j < i && fm[..i][j] == pairs[k].fm;
      assert fm[j] == fm[..i][j];
    }
  }

  lemma PairAppend(pairs: seq<Pair>, x: Pair)
    requires NoDuplicates(FmSide(pairs)) && NoDuplicates(FpiSide(pairs))
    requires x.fm !in FmSide(pairs) && x.fpi !in FpiSide(pairs)
    ensures FmSide(pairs + [x]) == FmSide(pairs) + [x.fm]
    ensures FpiSide(pairs + [x]) == FpiSide(pairs) + [x.fpi]
    ensures NoDuplicates(FmSide(pairs + [x])) && NoDuplicates(FpiSide(pairs + [x]))
  {
    assert FmSide(pairs + [x]) == FmSide(pairs) + [x.fm];
    assert FpiSide(pairs + [x]) == FpiSide(pairs) + [x.fpi];
  }

  // ----------------------------------------------------------------- passes

  /** What one pass leaves: the pairs of each fm team, and the two pools less them. */
  datatype PassResult = PassResult(pairs: map<string, seq<Pair>>, fm: Pools, fpi: Pools)

  /** Every fm team with players has a pool on the fpi side (`players_fpi_copy[team_id]`
      is looked up only once the team has an fm player to scan). */
  predicate TeamsCovered(fm: Pools, fpi: Pools) {
    forall t | t in fm.pool && fm.pool[t] != [] :: t in fpi.pool
  }

  /** A pass over every fm team: each team is matched on its own, and fpi teams with no
      fm counterpart are left alone. */
  predicate PassSpec(fm: Pools, fpi: Pools, byRole: bool, out: PassResult) {
    && WellFormed(out.fm) && WellFormed(out.fpi)
    && out.fm.teams == fm.teams && out.fpi.teams == fpi.teams
    && (forall t | t in fm.pool :: t in out.pairs)
    && (forall t | t in fm.pool && t in out.pairs ::
          TeamMatching(fm.pool[t], PoolOf(fpi.pool, t), byRole,
                       out.pairs[t], PoolOf(out.fm.pool, t), PoolOf(out.fpi.pool, t)))
    && (forall t | t in fpi.pool && t !in fm.pool :: PoolOf(out.fpi.pool, t) == fpi.pool[t])
  }

  /** The fm team at which pass 1 raises `KeyError`: the first, in fm order, that has
      players but no fpi pool. */
  function FirstUncoveredTeam(teams: seq<string>, fm: Pools, fpi: Pools): (r: Option<string>)
    requires forall t | t in teams :: t in fm.pool
    ensures r.None? <==> forall t | t in teams && fm.pool[t] != [] :: t in fpi.pool
    ensures r.Some? ==> r.value in teams && fm.pool[r.value] != [] && r.value !in fpi.pool
  {
    if teams == [] then None
    else if fm.pool[teams[0]] != [] && teams[0] !in fpi.pool then Some(teams[0])
    else FirstUncoveredTeam(teams[1..], fm, fpi)
  }

  /** Halfway through a pass: the first `i` fm teams are matched, the others untouched. */
  predicate PassInv(fm: Pools, fpi: Pools, byRole: bool, i: nat, pairs: map<string, seq<Pair>>,
                    fmPool: map<string, seq<PlayerRecord>>, fpiPool: map<string, seq<PlayerRecord>>)
    requires i <= |fm.teams|
  {
    && fmPool.Keys == fm.pool.Keys && fpiPool.Keys == fpi.pool.Keys
    && (forall u | u in fmPool :: NoDuplicates(fmPool[u]))
    && (forall u | u in fpiPool :: NoDuplicates(fpiPool[u]))
    && (forall k | 0 <= k < i :: fm.teams[k] in pairs)
    && (forall k | i <= k < |fm.teams| :: fm.teams[k] !in pairs)
    && (forall u | u in pairs :: u in fm.pool)
    && (forall u | u in pairs && u in fm.pool ::
          TeamMatching(fm.pool[u], PoolOf(fpi.pool, u), byRole, pairs[u], PoolOf(fmPool, u), PoolOf(fpiPool, u)))
    && (forall u | u in fmPool && u !in pairs :: fmPool[u] == fm.pool[u])
    && (forall u | u in fpiPool && u !in pairs :: fpiPool[u] == fpi.pool[u])
  }

  /** The body of a pass for team `t`: scan its fm players unless it has none. */
  method PassOverTeam(fmTeam: seq<PlayerRecord>, byRole: bool, pairs: map<string, seq<Pair>>,
                      fmPool: map<string, seq<PlayerRecord>>, fpiPool: map<string, seq<PlayerRecord>>, t: string)
    returns (pairs': map<string, seq<Pair>>, fmPool': map<string, seq<PlayerRecord>>,
             fpiPool': map<string, seq<PlayerRecord>>)
    requires t in fmPool && fmPool[t] == fmTeam
    requires fmTeam != [] ==> t in fpiPool
    requires NoDuplicates(fmTeam) && NoDuplicates(PoolOf(fpiPool, t))
    ensures fmPool'.Keys == fmPool.Keys && fpiPool'.Keys == fpiPool.Keys && pairs'.Keys == pairs.Keys + {t}
    ensures forall u | u in pairs && u != t :: pairs'[u] == pairs[u]
    ensures forall u | u in fmPool && u != t :: fmPool'[u] == fmPool[u]
    ensures forall u | u in fpiPool && u != t :: fpiPool'[u] == fpiPool[u]
    ensures NoDuplicates(fmPool'[t]) && NoDuplicates(PoolOf(fpiPool', t))
    ensures TeamMatching(fmTeam, PoolOf(fpiPool, t), byRole, pairs'[t], PoolOf(fmPool', t), PoolOf(fpiPool', t))
  {
    if fmTeam == [] {
      pairs', fmPool', fpiPool' := pairs[t := []], fmPool, fpiPool;
    } else {
      var teamPairs, fmLeft, fpiLeft := MatchTeam(fmTeam, fpiPool[t], byRole);
      pairs' := pairs[t := teamPairs];
      fmPool' := fmPool[t := fmLeft];
      fpiPool' := fpiPool[t := fpiLeft];
    }
  }

  /** Matching the `i`-th team moves the pass from `i` teams done to `i + 1`. */
  lemma PassInvStep(fm: Pools, fpi: Pools, byRole: bool, i: nat, pairs: map<string, seq<Pair>>,
                    fmPool: map<string, seq<PlayerRecord>>, fpiPool: map<string, seq<PlayerRecord>>,
                    pairs': map<string, seq<Pair>>, fmPool': map<string, seq<PlayerRecord>>,
                    fpiPool': map<string, seq<PlayerRecord>>)
    requires WellFormed(fm) && i < |fm.teams|
    requires PassInv(fm, fpi, byRole, i, pairs, fmPool, fpiPool)
    requires var t := fm.teams[i];
      && fmPool'.Keys == fmPool.Keys && fpiPool'.Keys == fpiPool.Keys && pairs'.Keys == pairs.Keys + {t}
      && (forall u | u in pairs && u != t :: pairs'[u] == pairs[u])
      && (forall u | u in fmPool && u != t :: fmPool'[u] == fmPool[u])
      && (forall u | u in fpiPool && u != t :: fpiPool'[u] == fpiPool[u])
      && NoDuplicates(fmPool'[t]) && NoDuplicates(PoolOf(fpiPool', t))
      && TeamMatching(fm.pool[t], PoolOf(fpi.pool, t), byRole, pairs'[t], PoolOf(fmPool', t), PoolOf(fpiPool', t))
    ensures PassInv(fm, fpi, byRole, i + 1, pairs', fmPool', fpiPool')
  {
    var t := fm.teams[i];
    assert t in fm.teams;
    OtherTeamsKeepMatching(fm, fpi, byRole, pairs, fmPool, fpiPool, pairs', fmPool', fpiPool', t);
    PoolsStep(fm.pool, fmPool, pairs, fmPool', pairs', t);
    PoolsStep(fpi.pool, fpiPool, pairs, fpiPool', pairs', t);
    TeamsStep(fm, i, pairs, pairs');
  }

  /** Replacing the pool of team `t` by a duplicate-free one keeps every pool free of
      duplicates, and every team not matched yet keeps its original pool. */
  lemma PoolsStep(orig: map<string, seq<PlayerRecord>>, pool: map<string, seq<PlayerRecord>>,
                  pairs: map<string, seq<Pair>>, pool': map<string, seq<PlayerRecord>>,
                  pairs': map<string, seq<Pair>>, t: string)
    requires pool'.Keys == pool.Keys && pool.Keys == orig.Keys && pairs'.Keys == pairs.Keys + {t}
    requires forall u | u in pool && u != t :: pool'[u] == pool[u]
    requires NoDuplicates(PoolOf(pool', t))
    requires forall u | u in pool :: NoDuplicates(pool[u])
    requires forall u | u in pool && u !in pairs :: pool[u] == orig[u]
    ensures forall u | u in pool' :: NoDuplicates(pool'[u])
    ensures forall u | u in pool' && u !in pairs' :: pool'[u] == orig[u]
  {
    forall u | u in pool'
      ensures NoDuplicates(pool'[u])
    {
      if u == t {
        assert PoolOf(pool', t) == pool'[u];
      }
    }
  }

  /** Team `i` joins the matched teams. */
  lemma TeamsStep(fm: Pools, i: nat, pairs: map<string, seq<Pair>>, pairs': map<string, seq<Pair>>)
    requires WellFormed(fm) && i < |fm.teams|
    requires pairs'.Keys == pairs.Keys + {fm.teams[i]}
    requires forall k | 0 <= k < i :: fm.teams[k] in pairs
    requires forall k | i <= k < |fm.teams| :: fm.teams[k] !in pairs
    requires forall u | u in pairs :: u in fm.pool
    ensures forall k | 0 <= k < i + 1 :: fm.teams[k] in pairs'
    ensures forall k | i + 1 <= k < |fm.teams| :: fm.teams[k] !in pairs'
    ensures forall u | u in pairs' :: u in fm.pool
  {
    assert fm.teams[i] in fm.teams;
    forall k | i + 1 <= k < |fm.teams|
      ensures fm.teams[k] !in pairs'
    {
      assert fm.teams[k] != fm.teams[i];
    }
  }

  /** Matching one team leaves what the pass established for the other teams. */
  lemma OtherTeamsKeepMatching(fm: Pools, fpi: Pools, byRole: bool,
                               pairs: map<string, seq<Pair>>, fmPool: map<string, seq<PlayerRecord>>,
                               fpiPool: map<string, seq<PlayerRecord>>,
                               pairs': map<string, seq<Pair>>, fmPool': map<string, seq<PlayerRecord>>,
                               fpiPool': map<string, seq<PlayerRecord>>, t: string)
    requires t in fm.pool
    requires forall u | u in pairs && u in fm.pool ::
      TeamMatching(fm.pool[u], PoolOf(fpi.pool, u), byRole, pairs[u], PoolOf(fmPool, u), PoolOf(fpiPool, u))
    requires fmPool'.Keys == fmPool.Keys && fpiPool'.Keys == fpiPool.Keys && pairs'.Keys == pairs.Keys + {t}
    requires forall u | u in pairs && u != t :: pairs'[u] == pairs[u]
    requires forall u | u in fmPool && u != t :: fmPool'[u] == fmPool[u]
    requires forall u | u in fpiPool && u != t :: fpiPool'[u] == fpiPool[u]
    requires TeamMatching(fm.pool[t], PoolOf(fpi.pool, t), byRole, pairs'[t], PoolOf(fmPool', t), PoolOf(fpiPool', t))
    ensures forall u | u in pairs' && u in fm.pool ::
      TeamMatching(fm.pool[u], PoolOf(fpi.pool, u), byRole, pairs'[u], PoolOf(fmPool', u), PoolOf(fpiPool', u))
  {
    forall u | u in pairs' && u in fm.pool
      ensures TeamMatching(fm.pool[u], PoolOf(fpi.pool, u), byRole, pairs'[u], PoolOf(fmPool', u), PoolOf(fpiPool', u))
    {
      if u != t {
        assert PoolOf(fpiPool', u) == PoolOf(fpiPool, u);
        assert PoolOf(fmPool', u) == PoolOf(fmPool, u);
      }
    }
  }

  /** One pass of `find_player_mappings` (lines 107-121 with `byRole`, 124-138 without),
      each team's scan stopping at its first match. */
  method MatchingPass(fm: Pools, fpi: Pools, byRole: bool) returns (out: PassResult)
    requires WellFormed(fm) && WellFormed(fpi) && TeamsCovered(fm, fpi)
    ensures PassSpec(fm, fpi, byRole, out)
  {
    var pairs: map<string, seq<Pair>> := map[];
    var fmPool := fm.pool;
    var fpiPool := fpi.pool;
    var i := 0;
    while i < |fm.teams|
      invariant 0 <= i <= |fm.teams|
      invariant PassInv(fm, fpi, byRole, i, pairs, fmPool, fpiPool)
    {
      var t := fm.teams[i];
      assert t !in pairs && PoolOf(fpiPool, t) == PoolOf(fpi.pool, t);
      var pairs', fmPool', fpiPool' := PassOverTeam(fm.pool[t], byRole, pairs, fmPool, fpiPool, t);
      PassInvStep(fm, fpi, byRole, i, pairs, fmPool, fpiPool, pairs', fmPool', fpiPool');
      pairs, fmPool, fpiPool := pairs', fmPool', fpiPool';
      i := i + 1;
    }
    out := PassResult(pairs, Pools(fm.teams, fmPool), Pools(fpi.teams, fpiPool));
    PassEnds(fm, fpi, byRole, out);
  }

  lemma PassEnds(fm: Pools, fpi: Pools, byRole: bool, out: PassResult)
    requires WellFormed(fm) && WellFormed(fpi)
    requires out.fm.teams == fm.teams && out.fpi.teams == fpi.teams
    requires PassInv(fm, fpi, byRole, |fm.teams|, out.pairs, out.fm.pool, out.fpi.pool)
    ensures PassSpec(fm, fpi, byRole, out)
  {
    SamePoolKeys(fm, out.fm);
    SamePoolKeys(fpi, out.fpi);
    forall t | t in fm.pool
      ensures t in out.pairs
    {
      var k :| 0 <= k < |fm.teams| && fm.teams[k] == t;
    }
    forall t | t in fpi.pool && t !in fm.pool
      ensures PoolOf(out.fpi.pool, t) == fpi.pool[t]
    {
      assert t !in out.pairs;
    }
  }

  /** Pools over the same teams and keys, each duplicate-free, are well formed. */
  lemma SamePoolKeys(p: Pools, q: Pools)
    requires WellFormed(p) && q.teams == p.teams && q.pool.Keys == p.pool.Keys
    requires forall u | u in q.pool :: NoDuplicates(q.pool[u])
    ensures WellFormed(q)
  {
  }

  // --------------------------------------------------------------- mappings

  function MappingOf(seasonId: string, x: Pair): Mapping {
    Mapping(seasonId, x.fpi.code, x.fm.code)
  }

  function PairsOf(pairs: map<string, seq<Pair>>, team: string): seq<Pair> {
    if team in pairs then pairs[team] else []
  }

  /** The mappings a pass appends, team after team and pair after pair. */
  function PassMappings(seasonId: string, teams: seq<string>, pairs: map<string, seq<Pair>>): seq<Mapping> {
    if teams == [] then []
    else
      var own := seq(|PairsOf(pairs, teams[0])|, k requires 0 <= k < |PairsOf(pairs, teams[0])| =>
                       MappingOf(seasonId, PairsOf(pairs, teams[0])[k]));
      own + PassMappings(seasonId, teams[1..], pairs)
  }

  /** A pass yields a mapping for each of its pairs and for nothing else. */
  lemma {:induction false} PassMappingsMembers(seasonId: string, teams: seq<string>,
                                               pairs: map<string, seq<Pair>>, m: Mapping)
    ensures m in PassMappings(seasonId, teams, pairs)
        <==> exists t, k :: t in teams && 0 <= k < |PairsOf(pairs, t)| && m == MappingOf(seasonId, PairsOf(pairs, t)[k])
  {
    if teams != [] {
      var own := PairsOf(pairs, teams[0]);
      var ownMappings := seq(|own|, k requires 0 <= k < |own| => MappingOf(seasonId, own[k]));
      assert PassMappings(seasonId, teams, pairs) == ownMappings + PassMappings(seasonId, teams[1..], pairs);
      PassMappingsMembers(seasonId, teams[1..], pairs, m);
      if m in ownMappings {
        var k :| 0 <= k < |own| && ownMappings[k] == m;
        assert teams[0] in teams && m == MappingOf(seasonId, PairsOf(pairs, teams[0])[k]);
      }
      if exists t, k :: t in teams && 0 <= k < |PairsOf(pairs, t)| && m == MappingOf(seasonId, PairsOf(pairs, t)[k]) {
        var t, k :| t in teams && 0 <= k < |PairsOf(pairs, t)| && m == MappingOf(seasonId, PairsOf(pairs, t)[k]);
        if t == teams[0] {
          assert ownMappings[k] == m;
        } else {
          assert t in teams[1..];
        }
      }
    }
  }

  const UNMATCHED_MESSAGE := "Could not match these players:\n"

  /** `_raise_error_if_fm_players_without_a_match`: gather every leftover fm player and
      raise when there is any. */
  method RaiseIfUnmatched(fm: Pools) returns (r: Outcome<Error>)
    requires WellFormed(fm)
    ensures r.Pass? <==> forall t | t in fm.pool :: fm.pool[t] == []
    ensures r.Fail? ==> r.error == ValueError(UNMATCHED_MESSAGE)
  {
    var unmatched: set<PlayerRecord> := {};
    var i := 0;
    while i < |fm.teams|
      invariant 0 <= i <= |fm.teams|
      invariant forall x :: x in unmatched <==> exists k :: 0 <= k < i && x in fm.pool[fm.teams[k]]
      invariant unmatched == {} <==> forall k | 0 <= k < i :: fm.pool[fm.teams[k]] == []
    {
      MembersOfEmpty(fm.pool[fm.teams[i]]);
      unmatched := unmatched + Members(fm.pool[fm.teams[i]]);
      i := i + 1;
    }
    if unmatched != {} {
      return Fail(ValueError(UNMATCHED_MESSAGE));
    }
    forall t | t in fm.pool
      ensures fm.pool[t] == []
    {
      var k :| 0 <= k < |fm.teams| && fm.teams[k] == t;
    }
    r := Pass;
  }

  /** `set(s)`. */
  function Members(s: seq<PlayerRecord>): (r: set<PlayerRecord>)
    ensures forall x :: x in r <==> x in s
  {
    set x | x in s
  }

  lemma MembersOfEmpty(s: seq<PlayerRecord>)
    ensures Members(s) == {} <==> s == []
  {
    if s != [] {
      assert s[0] in Members(s);
    }
  }

  // ------------------------------------------------------ find_player_mappings

  /** A mapping that pairs a player of an fm team with a namesake in the same fpi team. */
  predicate Justified(fm: Pools, fpi: Pools, seasonId: string, m: Mapping) {
    exists t, f, p :: t in fm.pool && f in fm.pool[t] && p in PoolOf(fpi.pool, t)
      && f.name == p.name && m == Mapping(seasonId, p.code, f.code)
  }

  /** `f` of team `t` is mapped to a namesake of the same team. */
  predicate MappedByName(fpi: Pools, seasonId: string, t: string, f: PlayerRecord, ms: seq<Mapping>) {
    exists p :: p in PoolOf(fpi.pool, t) && p.name == f.name && Mapping(seasonId, p.code, f.code) in ms
  }

  predicate HasExactPartner(fpi: Pools, t: string, f: PlayerRecord) {
    exists p :: p in PoolOf(fpi.pool, t) && SameNameAndRole(f, p)
  }

  /** `f` of team `t` is mapped to a player of the same team with its name and role. */
  predicate MappedExactly(fpi: Pools, seasonId: string, t: string, f: PlayerRecord, ms: seq<Mapping>) {
    exists p :: p in PoolOf(fpi.pool, t) && SameNameAndRole(f, p) && Mapping(seasonId, p.code, f.code) in ms
  }

  /** No other fm player of the team shares `f`'s name and role. */
  predicate WithoutRivals(team: seq<PlayerRecord>, f: PlayerRecord) {
    forall g | g in team && g != f :: !SameNameAndRole(g, f)
  }

  /** A pass leaves no fm team with players and without an fpi pool. */
  lemma PassKeepsCovered(fm: Pools, fpi: Pools, byRole: bool, out: PassResult)
    requires WellFormed(fm) && WellFormed(fpi) && TeamsCovered(fm, fpi) && PassSpec(fm, fpi, byRole, out)
    ensures TeamsCovered(out.fm, out.fpi)
  {
    forall t | t in out.fm.pool && out.fm.pool[t] != []
      ensures t in out.fpi.pool
    {
      assert t in fm.pool;
      assert out.fm.pool[t][0] in fm.pool[t];
    }
  }

  /** After both passes leave an fm team empty, each of its players was paired by one
      of them with a namesake from the team's fpi pool. */
  lemma PairedByOnePass(fmTeam: seq<PlayerRecord>, fpiTeam: seq<PlayerRecord>,
                        pairs1: seq<Pair>, fmLeft1: seq<PlayerRecord>, fpiLeft1: seq<PlayerRecord>,
                        pairs2: seq<Pair>, fpiLeft2: seq<PlayerRecord>, f: PlayerRecord)
    requires TeamMatching(fmTeam, fpiTeam, true, pairs1, fmLeft1, fpiLeft1)
    requires TeamMatching(fmLeft1, fpiLeft1, false, pairs2, [], fpiLeft2)
    requires f in fmTeam
    ensures (exists k :: 0 <= k < |pairs1| && pairs1[k].fm == f) || (exists k :: 0 <= k < |pairs2| && pairs2[k].fm == f)
  {
    if f !in FmSide(pairs1) {
      assert f in fmLeft1;
      assert f in FmSide(pairs2);
    }
  }

  /** Every pair of either pass joins an fm player and an fpi namesake of the same team. */
  lemma PairsOfBothPasses(fmTeam: seq<PlayerRecord>, fpiTeam: seq<PlayerRecord>,
                          pairs1: seq<Pair>, fmLeft1: seq<PlayerRecord>, fpiLeft1: seq<PlayerRecord>,
                          pairs2: seq<Pair>, fmLeft2: seq<PlayerRecord>, fpiLeft2: seq<PlayerRecord>)
    requires TeamMatching(fmTeam, fpiTeam, true, pairs1, fmLeft1, fpiLeft1)
    requires TeamMatching(fmLeft1, fpiLeft1, false, pairs2, fmLeft2, fpiLeft2)
    ensures forall x | x in pairs1 || x in pairs2 :: x.fm in fmTeam && x.fpi in fpiTeam && x.fm.name == x.fpi.name
  {
  }

  /** A name-and-role match wins: an fm player whose name and role no teammate shares,
      and who has an exact partner, is paired exactly by pass 1. */
  lemma {:induction false} ExactPartnerFirst(fmTeam: seq<PlayerRecord>, fpiTeam: seq<PlayerRecord>,
                                             pairs: seq<Pair>, fmLeft: seq<PlayerRecord>, fpiLeft: seq<PlayerRecord>,
                                             f: PlayerRecord, p: PlayerRecord)
    requires TeamMatching(fmTeam, fpiTeam, true, pairs, fmLeft, fpiLeft)
    requires f in fmTeam && p in fpiTeam && SameNameAndRole(f, p) && WithoutRivals(fmTeam, f)
    ensures exists k :: 0 <= k < |pairs| && pairs[k].fm == f && SameNameAndRole(f, pairs[k].fpi)
  {
    if f !in FmSide(pairs) {
      assert f in fmLeft;
      assert p !in fpiLeft;
      var k :| 0 <= k < |pairs| && FpiSide(pairs)[k] == p;
      assert pairs[k].fm == f;
    }
  }

  /** Both passes have run and no fm player is left. */
  predicate BothPassesDone(fm: Pools, fpi: Pools, first: PassResult, second: PassResult) {
    && WellFormed(fm) && WellFormed(fpi)
    && PassSpec(fm, fpi, true, first) && PassSpec(first.fm, first.fpi, false, second)
    && (forall t | t in second.fm.pool :: second.fm.pool[t] == [])
  }

  /** What both passes did to one fm team. */
  lemma TeamAfterBothPasses(fm: Pools, fpi: Pools, first: PassResult, second: PassResult, t: string)
    requires BothPassesDone(fm, fpi, first, second) && t in fm.pool
    ensures t in first.pairs && t in second.pairs && t in first.fm.pool
    ensures PairsOf(first.pairs, t) == first.pairs[t] && PairsOf(second.pairs, t) == second.pairs[t]
    ensures TeamMatching(fm.pool[t], PoolOf(fpi.pool, t), true, first.pairs[t], first.fm.pool[t], PoolOf(first.fpi.pool, t))
    ensures TeamMatching(first.fm.pool[t], PoolOf(first.fpi.pool, t), false, second.pairs[t], [], PoolOf(second.fpi.pool, t))
  {
    assert t in first.fm.pool && t in second.fm.pool;
  }

  function AllMappings(seasonId: string, fm: Pools, first: PassResult, second: PassResult): seq<Mapping> {
    PassMappings(seasonId, fm.teams, first.pairs) + PassMappings(seasonId, fm.teams, second.pairs)
  }

  /** The mapping of a pair of either pass is in the result. */
  lemma PairMapped(seasonId: string, teams: seq<string>, pairs1: map<string, seq<Pair>>,
                   pairs2: map<string, seq<Pair>>, t: string, x: Pair)
    requires t in teams && t in pairs1 && t in pairs2 && (x in pairs1[t] || x in pairs2[t])
    ensures MappingOf(seasonId, x) in PassMappings(seasonId, teams, pairs1) + PassMappings(seasonId, teams, pairs2)
  {
    var pairs := if x in pairs1[t] then pairs1 else pairs2;
    var k :| 0 <= k < |pairs[t]| && pairs[t][k] == x;
    PassMappingsMembers(seasonId, teams, pairs, MappingOf(seasonId, x));
  }

  /** Every mapping joins an fm player and a same-team fpi namesake. */
  lemma {:induction false} MappingJustified(fm: Pools, fpi: Pools, seasonId: string,
                                             first: PassResult, second: PassResult, m: Mapping)
    requires BothPassesDone(fm, fpi, first, second)
    requires m in AllMappings(seasonId, fm, first, second)
    ensures m.seasonId == seasonId && Justified(fm, fpi, seasonId, m)
  {
    var pairs: map<string, seq<Pair>> :=
      if m in PassMappings(seasonId, fm.teams, first.pairs) then first.pairs else second.pairs;
    PassMappingsMembers(seasonId, fm.teams, pairs, m);
    var t, k :| t in fm.teams && 0 <= k < |PairsOf(pairs, t)| && m == MappingOf(seasonId, PairsOf(pairs, t)[k]);
    TeamAfterBothPasses(fm, fpi, first, second, t);
    var x := PairsOf(pairs, t)[k];
    PairsOfBothPasses(fm.pool[t], PoolOf(fpi.pool, t), first.pairs[t], first.fm.pool[t], PoolOf(first.fpi.pool, t),
                      second.pairs[t], [], PoolOf(second.fpi.pool, t));
    assert x in first.pairs[t] || x in second.pairs[t];
    assert x.fm in fm.pool[t] && x.fpi in PoolOf(fpi.pool, t) && x.fm.name == x.fpi.name;
  }

  /** Every fm player of a team emptied by the two passes is mapped to a namesake. */
  lemma {:induction false} TeamPlayerMapped(seasonId: string, teams: seq<string>, t: string,
                                            pairs1: map<string, seq<Pair>>, pairs2: map<string, seq<Pair>>,
                                            fmTeam: seq<PlayerRecord>, fpiTeam: seq<PlayerRecord>,
                                            fmLeft1: seq<PlayerRecord>, fpiLeft1: seq<PlayerRecord>,
                                            fpiLeft2: seq<PlayerRecord>, f: PlayerRecord)
    requires t in teams && t in pairs1 && t in pairs2
    requires TeamMatching(fmTeam, fpiTeam, true, pairs1[t], fmLeft1, fpiLeft1)
    requires TeamMatching(fmLeft1, fpiLeft1, false, pairs2[t], [], fpiLeft2)
    requires f in fmTeam
    ensures exists p ::
      && p in fpiTeam && p.name == f.name
      && Mapping(seasonId, p.code, f.code) in PassMappings(seasonId, teams, pairs1) + PassMappings(seasonId, teams, pairs2)
  {
    PairedByOnePass(fmTeam, fpiTeam, pairs1[t], fmLeft1, fpiLeft1, pairs2[t], fpiLeft2, f);
    PairsOfBothPasses(fmTeam, fpiTeam, pairs1[t], fmLeft1, fpiLeft1, pairs2[t], [], fpiLeft2);
    var pairs: map<string, seq<Pair>> :=
      if exists k :: 0 <= k < |pairs1[t]| && pairs1[t][k].fm == f then pairs1 else pairs2;
    var k :| 0 <= k < |pairs[t]| && pairs[t][k].fm == f;
    var x := pairs[t][k];
    PairMapped(seasonId, teams, pairs1, pairs2, t, x);
  }

  /** Every fm player is mapped to a same-team fpi namesake. */
  lemma FmPlayerMapped(fm: Pools, fpi: Pools, seasonId: string,
                            first: PassResult, second: PassResult, t: string, f: PlayerRecord)
    requires BothPassesDone(fm, fpi, first, second)
    requires t in fm.pool && f in fm.pool[t]
    ensures MappedByName(fpi, seasonId, t, f, AllMappings(seasonId, fm, first, second))
  {
    TeamAfterBothPasses(fm, fpi, first, second, t);
    TeamPlayerMapped(seasonId, fm.teams, t, first.pairs, second.pairs, fm.pool[t], PoolOf(fpi.pool, t),
                     first.fm.pool[t], PoolOf(first.fpi.pool, t), PoolOf(second.fpi.pool, t), f);
  }

  /** Per team: an fm player with an exact partner and no rival is mapped exactly. */
  lemma {:induction false} TeamExactMapped(seasonId: string, teams: seq<string>, t: string,
                                           pairs1: map<string, seq<Pair>>, pairs2: map<string, seq<Pair>>,
                                           fmTeam: seq<PlayerRecord>, fpiTeam: seq<PlayerRecord>,
                                           fmLeft1: seq<PlayerRecord>, fpiLeft1: seq<PlayerRecord>,
                                           f: PlayerRecord, p: PlayerRecord)
    requires t in teams && t in pairs1 && t in pairs2
    requires TeamMatching(fmTeam, fpiTeam, true, pairs1[t], fmLeft1, fpiLeft1)
    requires f in fmTeam && p in fpiTeam && SameNameAndRole(f, p) && WithoutRivals(fmTeam, f)
    ensures exists q ::
      && q in fpiTeam && SameNameAndRole(f, q)
      && Mapping(seasonId, q.code, f.code) in PassMappings(seasonId, teams, pairs1) + PassMappings(seasonId, teams, pairs2)
  {
    ExactPartnerFirst(fmTeam, fpiTeam, pairs1[t], fmLeft1, fpiLeft1, f, p);
    var k :| 0 <= k < |pairs1[t]| && pairs1[t][k].fm == f && SameNameAndRole(f, pairs1[t][k].fpi);
    var x := pairs1[t][k];
    PairMapped(seasonId, teams, pairs1, pairs2, t, x);
  }

  /** An fm player with an exact partner and no teammate sharing its name and role is
      mapped to an exact partner. */
  lemma ExactPartnerMapped(fm: Pools, fpi: Pools, seasonId: string,
                           first: PassResult, second: PassResult, t: string, f: PlayerRecord)
    requires BothPassesDone(fm, fpi, first, second)
    requires t in fm.pool && f in fm.pool[t] && WithoutRivals(fm.pool[t], f) && HasExactPartner(fpi, t, f)
    ensures MappedExactly(fpi, seasonId, t, f, AllMappings(seasonId, fm, first, second))
  {
    TeamAfterBothPasses(fm, fpi, first, second, t);
    var p :| p in PoolOf(fpi.pool, t) && SameNameAndRole(f, p);
    TeamExactMapped(seasonId, fm.teams, t, first.pairs, second.pairs, fm.pool[t], PoolOf(fpi.pool, t),
                    first.fm.pool[t], PoolOf(first.fpi.pool, t), f, p);
  }

  /** Once no fm player is left, every mapping pairs same-team namesakes. */
  lemma MappingsJustified(fm: Pools, fpi: Pools, seasonId: string, first: PassResult, second: PassResult)
    requires BothPassesDone(fm, fpi, first, second)
    ensures forall m | m in AllMappings(seasonId, fm, first, second) ::
      m.seasonId == seasonId && Justified(fm, fpi, seasonId, m)
  {
    forall m | m in AllMappings(seasonId, fm, first, second)
      ensures m.seasonId == seasonId && Justified(fm, fpi, seasonId, m)
    {
      MappingJustified(fm, fpi, seasonId, first, second, m);
    }
  }

  /** Once no fm player is left, each of them has a mapping to a namesake. */
  lemma EveryFmPlayerMapped(fm: Pools, fpi: Pools, seasonId: string, first: PassResult, second: PassResult)
    requires BothPassesDone(fm, fpi, first, second)
    ensures forall t, f | t in fm.pool && f in fm.pool[t] ::
      MappedByName(fpi, seasonId, t, f, AllMappings(seasonId, fm, first, second))
  {
    forall t, f | t in fm.pool && f in fm.pool[t]
      ensures MappedByName(fpi, seasonId, t, f, AllMappings(seasonId, fm, first, second))
    {
      FmPlayerMapped(fm, fpi, seasonId, first, second, t, f);
    }
  }

  /** Once no fm player is left, a rival-free player with an exact partner is mapped to one. */
  lemma ExactPartnersPreferred(fm: Pools, fpi: Pools, seasonId: string, first: PassResult, second: PassResult)
    requires BothPassesDone(fm, fpi, first, second)
    ensures forall t, f | t in fm.pool && f in fm.pool[t] && WithoutRivals(fm.pool[t], f) && HasExactPartner(fpi, t, f) ::
      MappedExactly(fpi, seasonId, t, f, AllMappings(seasonId, fm, first, second))
  {
    forall t, f | t in fm.pool && f in fm.pool[t] && WithoutRivals(fm.pool[t], f) && HasExactPartner(fpi, t, f)
      ensures MappedExactly(fpi, seasonId, t, f, AllMappings(seasonId, fm, first, second))
    {
      ExactPartnerMapped(fm, fpi, seasonId, first, second, t, f);
    }
  }

  // ------------------------------------------- when the two passes leave no fm player

  /** The players of a pool that bear a name. */
  function NamedIn(s: seq<PlayerRecord>, n: string): (r: set<PlayerRecord>)
    ensures forall x :: x in r <==> x in s && x.name == n
  {
    set x | x in s && x.name == n
  }

  /** In every fm team each name borne by fm players is borne by at least as many fpi
      players of that team. */
  predicate EnoughNamesakes(fm: Pools, fpi: Pools) {
    forall t, f | t in fm.pool && f in fm.pool[t] ::
      |NamedIn(fm.pool[t], f.name)| <= |NamedIn(PoolOf(fpi.pool, t), f.name)|
  }

  /** Appending a new player adds it to the bearers of its own name only. */
  lemma NamedInAppend(s: seq<PlayerRecord>, x: PlayerRecord, n: string)
    requires x !in s
    ensures |NamedIn(s + [x], n)| == |NamedIn(s, n)| + (if x.name == n then 1 else 0)
  {
    if x.name == n {
      assert NamedIn(s + [x], n) == NamedIn(s, n) + {x};
    } else {
      assert NamedIn(s + [x], n) == NamedIn(s, n);
    }
  }

  lemma NoDuplicatesAppend(s: seq<PlayerRecord>, x: PlayerRecord)
    requires NoDuplicates(s + [x])
    ensures NoDuplicates(s) && x !in s
  {
    var t := s + [x];
    assert forall i, j | 0 <= i < j < |s| :: s[i] == t[i] && s[j] == t[j];
    forall i | 0 <= i < |s|
      ensures s[i] != x
    {
      assert t[i] == s[i] && t[|s|] == x;
    }
  }

  /** A one-to-one run of pairs of namesakes pairs as many fm players of a name as fpi ones. */
  lemma {:induction false} PairedNamesakes(pairs: seq<Pair>, byRole: bool, n: string)
    requires forall k | 0 <= k < |pairs| :: Matches(byRole, pairs[k].fm, pairs[k].fpi)
    requires NoDuplicates(FmSide(pairs)) && NoDuplicates(FpiSide(pairs))
    ensures |NamedIn(FmSide(pairs), n)| == |NamedIn(FpiSide(pairs), n)|
    decreases |pairs|
  {
    if pairs != [] {
      var init, x := pairs[..|pairs| - 1], pairs[|pairs| - 1];
      assert FmSide(pairs) == FmSide(init) + [x.fm];
      assert FpiSide(pairs) == FpiSide(init) + [x.fpi];
      NoDuplicatesAppend(FmSide(init), x.fm);
      NoDuplicatesAppend(FpiSide(init), x.fpi);
      assert forall k | 0 <= k < |init| :: init[k] == pairs[k];
      PairedNamesakes(init, byRole, n);
      assert x.fm.name == x.fpi.name;
      NamedInAppend(FmSide(init), x.fm, n);
      NamedInAppend(FpiSide(init), x.fpi, n);
    }
  }

  /** A pass over a team leaves, of each name, the players less the same number on
      both sides. */
  lemma LeftNamesakes(fm: seq<PlayerRecord>, fpi: seq<PlayerRecord>, byRole: bool,
                      pairs: seq<Pair>, fmLeft: seq<PlayerRecord>, fpiLeft: seq<PlayerRecord>, n: string)
    requires TeamMatching(fm, fpi, byRole, pairs, fmLeft, fpiLeft)
    ensures |NamedIn(fmLeft, n)| == |NamedIn(fm, n)| - |NamedIn(FmSide(pairs), n)|
    ensures |NamedIn(fpiLeft, n)| == |NamedIn(fpi, n)| - |NamedIn(FmSide(pairs), n)|
  {
    PairedNamesakes(pairs, byRole, n);
    var fmPaired, fpiPaired := NamedIn(FmSide(pairs), n), NamedIn(FpiSide(pairs), n);
    assert fmPaired <= NamedIn(fm, n) && fpiPaired <= NamedIn(fpi, n);
    assert NamedIn(fmLeft, n) == NamedIn(fm, n) - fmPaired;
    assert NamedIn(fpiLeft, n) == NamedIn(fpi, n) - fpiPaired;
  }

  /** Pass 2 leaves no name on both sides. */
  lemma NoNamesakesLeft(fmLeft: seq<PlayerRecord>, fpiLeft: seq<PlayerRecord>, n: string)
    requires forall f, p | f in fmLeft && p in fpiLeft :: !Matches(false, f, p)
    ensures NamedIn(fmLeft, n) == {} || NamedIn(fpiLeft, n) == {}
  {
    if NamedIn(fmLeft, n) != {} {
      var f :| f in NamedIn(fmLeft, n);
      forall p | p in fpiLeft
        ensures p !in NamedIn(fpiLeft, n)
      {
        assert !Matches(false, f, p);
      }
    }
  }

  /** Whatever order the sets are scanned in, the two passes empty a team's fm pool
      exactly when each of its names has at least as many fpi bearers as fm ones. */
  lemma TeamEmptiedIff(fmTeam: seq<PlayerRecord>, fpiTeam: seq<PlayerRecord>,
                       pairs1: seq<Pair>, fmLeft1: seq<PlayerRecord>, fpiLeft1: seq<PlayerRecord>,
                       pairs2: seq<Pair>, fmLeft2: seq<PlayerRecord>, fpiLeft2: seq<PlayerRecord>)
    requires TeamMatching(fmTeam, fpiTeam, true, pairs1, fmLeft1, fpiLeft1)
    requires TeamMatching(fmLeft1, fpiLeft1, false, pairs2, fmLeft2, fpiLeft2)
    ensures fmLeft2 == [] <==>
      forall f | f in fmTeam :: |NamedIn(fmTeam, f.name)| <= |NamedIn(fpiTeam, f.name)|
  {
    forall n: string
      ensures NamedIn(fmLeft2, n) == {} <==> |NamedIn(fmTeam, n)| <= |NamedIn(fpiTeam, n)|
    {
      LeftNamesakes(fmTeam, fpiTeam, true, pairs1, fmLeft1, fpiLeft1, n);
      LeftNamesakes(fmLeft1, fpiLeft1, false, pairs2, fmLeft2, fpiLeft2, n);
      NoNamesakesLeft(fmLeft2, fpiLeft2, n);
    }
    if fmLeft2 != [] {
      var f := fmLeft2[0];
      assert f in NamedIn(fmLeft2, f.name);
    } else {
      forall f | f in fmTeam
        ensures |NamedIn(fmTeam, f.name)| <= |NamedIn(fpiTeam, f.name)|
      {
        assert NamedIn(fmLeft2, f.name) == {};
      }
    }
  }

  /** The two passes leave no fm player exactly when every team has enough namesakes. */
  lemma BothPassesEmptyIff(fm: Pools, fpi: Pools, first: PassResult, second: PassResult)
    requires WellFormed(fm) && WellFormed(fpi)
    requires PassSpec(fm, fpi, true, first) && PassSpec(first.fm, first.fpi, false, second)
    ensures (forall t | t in second.fm.pool :: second.fm.pool[t] == []) <==> EnoughNamesakes(fm, fpi)
  {
    forall t | t in fm.pool
      ensures PoolOf(second.fm.pool, t) == [] <==>
        forall f | f in fm.pool[t] :: |NamedIn(fm.pool[t], f.name)| <= |NamedIn(PoolOf(fpi.pool, t), f.name)|
    {
      assert t in first.fm.pool;
      TeamEmptiedIff(fm.pool[t], PoolOf(fpi.pool, t),
                     first.pairs[t], first.fm.pool[t], PoolOf(first.fpi.pool, t),
                     second.pairs[t], PoolOf(second.fm.pool, t), PoolOf(second.fpi.pool, t));
    }
    assert forall t :: t in second.fm.pool <==> t in fm.pool;
  }

  /** `find_player_mappings`, passes 1 and 2. The `KeyError` that pass 1 raises
      at the first fm team with players and no fpi pool is raised up front: nothing
      observable happens before it. */
  method FindPlayerMappings(fpi: Pools, fm: Pools, seasonId: string) returns (r: Result<seq<Mapping>, Error>)
    requires WellFormed(fpi) && WellFormed(fm)
    ensures !TeamsCovered(fm, fpi) <==> r.Failure? && r.error.KeyError?
    ensures r.Failure? && r.error.KeyError? ==>
      r.error.key in fm.pool && fm.pool[r.error.key] != [] && r.error.key !in fpi.pool
    ensures r.Failure? ==> r.error.KeyError? || r.error == ValueError(UNMATCHED_MESSAGE)
    ensures TeamsCovered(fm, fpi) ==> (r.Success? <==> EnoughNamesakes(fm, fpi))
    ensures r.Success? ==> forall m | m in r.value :: m.seasonId == seasonId && Justified(fm, fpi, seasonId, m)
    ensures r.Success? ==> forall t, f | t in fm.pool && f in fm.pool[t] :: MappedByName(fpi, seasonId, t, f, r.value)
    ensures r.Success? ==>
      forall t, f | t in fm.pool && f in fm.pool[t] && WithoutRivals(fm.pool[t], f) && HasExactPartner(fpi, t, f) ::
        MappedExactly(fpi, seasonId, t, f, r.value)
  {
    var missing := FirstUncoveredTeam(fm.teams, fm, fpi);
    if missing.Some? {
      return Failure(KeyError(missing.value));
    }
    var first := MatchingPass(fm, fpi, true);
    PassKeepsCovered(fm, fpi, true, first);
    var second := MatchingPass(first.fm, first.fpi, false);
    BothPassesEmptyIff(fm, fpi, first, second);
    var unmatched := RaiseIfUnmatched(second.fm);
    if unmatched.Fail? {
      return Failure(unmatched.error);
    }
    assert BothPassesDone(fm, fpi, first, second);
    MappingsJustified(fm, fpi, seasonId, first, second);
    EveryFmPlayerMapped(fm, fpi, seasonId, first, second);
    ExactPartnersPreferred(fm, fpi, seasonId, first, second);
    r := Success(AllMappings(seasonId, fm, first, second));
  }
}
