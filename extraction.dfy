/** The two loop shapes the table-specific extractors share. A page parse walks the rows
    of a page in order, appends a record for each row that yields one and stops at the
    first row that raises. A scrape loop fetches at most a given number of pages, in
    order; one error kind ends the loop quietly, keeping what was already collected,
    and any other error propagates. */
module Extraction {
  import opened Wrappers
  import opened Exceptions
  import opened Seqs

  // ------------------------------------------------------------------ page parsing

  /** How many rows yield a record. */
  function CountKept<X, T>(rows: seq<X>, parse: X -> Result<Option<T>, Error>): nat
    decreases |rows|
  {
    if |rows| == 0 then 0
    else
      var last := parse(rows[|rows| - 1]);
      CountKept(rows[..|rows| - 1], parse) + (if last.Success? && last.value.Some? then 1 else 0)
  }

  /** The records of the rows that yield one, in row order, or the error of the first
      row that raises. */
  function Harvest<X, T>(rows: seq<X>, parse: X -> Result<Option<T>, Error>): Result<seq<T>, Error>
    decreases |rows|
  {
    if |rows| == 0 then Success([])
    else
      match Harvest(rows[..|rows| - 1], parse)
      case Failure(e) => Failure(e)
      case Success(out) =>
        match parse(rows[|rows| - 1])
        case Failure(e) => Failure(e)
        case Success(None) => Success(out)
        case Success(Some(t)) => Success(out + [t])
  }

  /** A page parses iff every row does; a failing parse carries the error of the first
      failing row; a successful one has a record for each row that yields one, and
      nothing else. */
  lemma {:induction false} HarvestMeaning<X, T>(rows: seq<X>, parse: X -> Result<Option<T>, Error>)
    ensures Harvest(rows, parse).Success? <==> forall i | 0 <= i < |rows| :: parse(rows[i]).Success?
    ensures Harvest(rows, parse).Failure? ==>
      exists i | 0 <= i < |rows| ::
        && parse(rows[i]) == Failure(Harvest(rows, parse).error)
        && forall j | 0 <= j < i :: parse(rows[j]).Success?
    ensures Harvest(rows, parse).Success? ==> |Harvest(rows, parse).value| == CountKept(rows, parse)
    ensures Harvest(rows, parse).Success? ==>
      forall t | t in Harvest(rows, parse).value :: exists i | 0 <= i < |rows| :: parse(rows[i]) == Success(Some(t))
    decreases |rows|
  {
    if |rows| > 0 {
      var init := rows[..|rows| - 1];
      assert forall i | 0 <= i < |init| :: init[i] == rows[i];
      HarvestMeaning(init, parse);
    }
  }

  /** Rows after a raising one change nothing. */
  lemma {:induction false} HarvestFailureSticks<X, T>(rows: seq<X>, more: seq<X>, parse: X -> Result<Option<T>, Error>)
    requires Harvest(rows, parse).Failure?
    ensures Harvest(rows + more, parse) == Harvest(rows, parse)
    decreases |more|
  {
    if |more| > 0 {
      var init := more[..|more| - 1];
      HarvestFailureSticks(rows, init, parse);
      InitOfAppend(rows, more);
    } else {
      assert rows + more == rows;
    }
  }

  /** Parsing two runs of rows one after the other gives the records of both, in order. */
  lemma {:induction false} HarvestAppend<X, T>(rows: seq<X>, more: seq<X>, parse: X -> Result<Option<T>, Error>)
    requires Harvest(rows, parse).Success? && Harvest(more, parse).Success?
    ensures Harvest(rows + more, parse) == Success(Harvest(rows, parse).value + Harvest(more, parse).value)
    decreases |more|
  {
    if |more| == 0 {
      assert rows + more == rows;
      assert Harvest(rows, parse).value + [] == Harvest(rows, parse).value;
    } else {
      var init := more[..|more| - 1];
      assert forall i | 0 <= i < |init| :: init[i] == more[i];
      HarvestAppend(rows, init, parse);
      InitOfAppend(rows, more);
      var a, b := Harvest(rows, parse).value, Harvest(init, parse).value;
      match parse(more[|more| - 1])
      case Success(None) =>
      case Success(Some(t)) =>
        assert a + b + [t] == a + (b + [t]);
    }
  }

  /** When every row yields a record, there is one record per row, in row order. */
  lemma {:induction false} HarvestOnePerRow<X, T>(rows: seq<X>, parse: X -> Result<Option<T>, Error>)
    requires forall i | 0 <= i < |rows| :: parse(rows[i]).Success? && parse(rows[i]).value.Some?
    ensures Harvest(rows, parse).Success?
    ensures |Harvest(rows, parse).value| == |rows|
    ensures forall i | 0 <= i < |rows| :: parse(rows[i]) == Success(Some(Harvest(rows, parse).value[i]))
    decreases |rows|
  {
    if |rows| > 0 {
      var init := rows[..|rows| - 1];
      assert forall i | 0 <= i < |init| :: init[i] == rows[i];
      HarvestOnePerRow(init, parse);
    }
  }

  /** The rows of a run of groups, each row paired with its group's key, group after
      group. */
  function Flatten<K, X>(groups: seq<(K, seq<X>)>): seq<(K, X)>
    decreases |groups|
  {
    if |groups| == 0 then []
    else Flatten(groups[..|groups| - 1]) + Tagged(groups[|groups| - 1].0, groups[|groups| - 1].1)
  }

  /** The rows of one group, each paired with the group's key. */
  function Tagged<K, X>(key: K, rows: seq<X>): (r: seq<(K, X)>)
    ensures |r| == |rows| && forall i | 0 <= i < |rows| :: r[i] == (key, rows[i])
  {
    seq(|rows|, i requires 0 <= i < |rows| => (key, rows[i]))
  }

  /** Every row of a run of groups carries the key of one of the groups. */
  lemma {:induction false} FlattenKeys<K, X>(groups: seq<(K, seq<X>)>)
    ensures forall i | 0 <= i < |Flatten(groups)| :: exists k | 0 <= k < |groups| :: groups[k].0 == Flatten(groups)[i].0
    decreases |groups|
  {
    if |groups| > 0 {
      var init, last := groups[..|groups| - 1], groups[|groups| - 1];
      FlattenKeys(init);
      forall i | 0 <= i < |Flatten(groups)|
        ensures exists k | 0 <= k < |groups| :: groups[k].0 == Flatten(groups)[i].0
      {
        if i < |Flatten(init)| {
          var k :| 0 <= k < |init| && init[k].0 == Flatten(init)[i].0;
          assert groups[k] == init[k];
        } else {
          assert Flatten(groups)[i] == Tagged(last.0, last.1)[i - |Flatten(init)|];
          assert groups[|groups| - 1].0 == Flatten(groups)[i].0;
        }
      }
    } else {
      assert Flatten(groups) == [];
    }
  }

  lemma {:induction false} FlattenAppend<K, X>(groups: seq<(K, seq<X>)>, more: seq<(K, seq<X>)>)
    ensures Flatten(groups + more) == Flatten(groups) + Flatten(more)
    decreases |more|
  {
    if |more| == 0 {
      assert groups + more == groups;
    } else {
      var init, last := more[..|more| - 1], more[|more| - 1];
      FlattenAppend(groups, init);
      InitOfAppend(groups, more);
      var t := Tagged(last.0, last.1);
      assert Flatten(groups + more) == Flatten(groups + init) + t;
      assert Flatten(more) == Flatten(init) + t;
      assert (Flatten(groups) + Flatten(init)) + t == Flatten(groups) + (Flatten(init) + t);
    }
  }

  /** One more row. */
  lemma HarvestSnoc<X, T>(rows: seq<X>, row: X, parse: X -> Result<Option<T>, Error>)
    requires Harvest(rows, parse).Success?
    ensures parse(row).Failure? ==> Harvest(rows + [row], parse) == Failure(parse(row).error)
    ensures parse(row) == Success(None) ==> Harvest(rows + [row], parse) == Harvest(rows, parse)
    ensures parse(row).Success? && parse(row).value.Some? ==>
      Harvest(rows + [row], parse) == Success(Harvest(rows, parse).value + [parse(row).value.value])
  {
    assert (rows + [row])[..|rows|] == rows;
  }

  lemma TaggedSnoc<K, X>(key: K, rows: seq<X>, j: nat)
    requires j < |rows|
    ensures Tagged(key, rows[..j + 1]) == Tagged(key, rows[..j]) + [(key, rows[j])]
  {
  }

  /** The loop of a page parser over flat rows: parse each row in order, append the
      record it yields, and stop at the first that raises. */
  method HarvestRows<X, T>(rows: seq<X>, parse: X -> Result<Option<T>, Error>) returns (r: Result<seq<T>, Error>)
    ensures r == Harvest(rows, parse)
  {
    var output: seq<T> := [];
    var i := 0;
    while i < |rows|
      invariant 0 <= i <= |rows|
      invariant Harvest(rows[..i], parse) == Success(output)
    {
      PrefixSnoc(rows, i);
      HarvestSnoc(rows[..i], rows[i], parse);
      match parse(rows[i]) {
        case Failure(e) =>
          HarvestFailureSticks(rows[..i + 1], rows[i + 1..], parse);
          assert rows[..i + 1] + rows[i + 1..] == rows;
          return Failure(e);
        case Success(None) =>
        case Success(Some(t)) =>
          output := output + [t];
      }
      i := i + 1;
    }
    assert rows[..i] == rows;
    r := Success(output);
  }

  /** A two-argument row parser as a parser of key-and-row pairs. */
  function Paired<K, X, T>(parse: (K, X) -> Result<Option<T>, Error>): ((K, X)) -> Result<Option<T>, Error> {
    (p: (K, X)) => parse(p.0, p.1)
  }

  /** The nested loop of the page parsers: for each group, for each of its rows, parse
      the row with the group's key; the result is `Harvest` of the flattened rows. */
  method HarvestGroups<K, X, T>(groups: seq<(K, seq<X>)>, parse: (K, X) -> Result<Option<T>, Error>)
    returns (r: Result<seq<T>, Error>)
    ensures r == Harvest(Flatten(groups), Paired(parse))
  {
    var f := Paired(parse);
    var output: seq<T> := [];
    var i := 0;
    while i < |groups|
      invariant 0 <= i <= |groups|
      invariant Harvest(Flatten(groups[..i]), f) == Success(output)
    {
      var (key, rows) := groups[i];
      var done := Flatten(groups[..i]);
      var j := 0;
      assert done + Tagged(key, rows[..j]) == done;
      while j < |rows|
        invariant 0 <= j <= |rows|
        invariant Harvest(done + Tagged(key, rows[..j]), f) == Success(output)
      {
        var before := done + Tagged(key, rows[..j]);
        assert before + [(key, rows[j])] == done + Tagged(key, rows[..j + 1]) by {
          TaggedSnoc(key, rows, j);
        }
        HarvestSnoc(before, (key, rows[j]), f);
        match parse(key, rows[j]) {
          case Failure(e) =>
            RestAfter(groups, i, j);
            HarvestFailureSticks(done + Tagged(key, rows[..j + 1]), Tagged(key, rows[j + 1..]) + Flatten(groups[i + 1..]), f);
            return Failure(e);
          case Success(None) =>
          case Success(Some(t)) =>
            output := output + [t];
        }
        j := j + 1;
      }
      assert rows[..j] == rows;
      assert Flatten(groups[..i + 1]) == done + Tagged(key, rows) by {
        PrefixSnoc(groups, i);
      }
      i := i + 1;
    }
    assert groups[..i] == groups;
    r := Success(output);
  }

  lemma FlattenOne<K, X>(g: (K, seq<X>))
    ensures Flatten([g]) == Tagged(g.0, g.1)
  {
    assert [g][..0] == [];
  }

  lemma FlattenThree<K, X>(front: seq<(K, seq<X>)>, g: (K, seq<X>), back: seq<(K, seq<X>)>)
    ensures Flatten(front + [g] + back) == Flatten(front) + Tagged(g.0, g.1) + Flatten(back)
  {
    FlattenAppend(front + [g], back);
    FlattenAppend(front, [g]);
    FlattenOne(g);
  }

  /** The flattened rows of all groups split at group `i`. */
  lemma FlattenAround<K, X>(groups: seq<(K, seq<X>)>, i: nat)
    requires i < |groups|
    ensures Flatten(groups) == Flatten(groups[..i]) + Tagged(groups[i].0, groups[i].1) + Flatten(groups[i + 1..])
  {
    SplitAt(groups, i);
    FlattenThree(groups[..i], groups[i], groups[i + 1..]);
  }

  lemma TaggedSplit<K, X>(key: K, rows: seq<X>, j: nat)
    requires j <= |rows|
    ensures Tagged(key, rows) == Tagged(key, rows[..j]) + Tagged(key, rows[j..])
  {
  }

  /** The flattened rows of all groups split at row `j` of group `i`. */
  lemma RestAfter<K, X>(groups: seq<(K, seq<X>)>, i: nat, j: nat)
    requires i < |groups| && j < |groups[i].1|
    ensures Flatten(groups)
         == (Flatten(groups[..i]) + Tagged(groups[i].0, groups[i].1[..j + 1]))
            + (Tagged(groups[i].0, groups[i].1[j + 1..]) + Flatten(groups[i + 1..]))
  {
    FlattenAround(groups, i);
    TaggedSplit(groups[i].0, groups[i].1, j + 1);
    var a, b, c, d := Flatten(groups[..i]), Tagged(groups[i].0, groups[i].1[..j + 1]),
                      Tagged(groups[i].0, groups[i].1[j + 1..]), Flatten(groups[i + 1..]);
    assert a + (b + c) + d == (a + b) + (c + d);
  }

  // ------------------------------------------------------------------ scrape loops

  /** `records` before whatever the rest of the loop gives. */
  function Prepend<T>(records: seq<T>, rest: Result<seq<T>, Error>): Result<seq<T>, Error> {
    match rest
    case Success(more) => Success(records + more)
    case Failure(e) => Failure(e)
  }

  lemma PrependNothing<T>(rest: Result<seq<T>, Error>)
    ensures Prepend([], rest) == rest
  {
    if rest.Success? {
      assert [] + rest.value == rest.value;
    }
  }

  /** What a scrape loop returns, given each page's parse outcome in query order: pages
      are taken while fewer than `limit` have been; a page failing with an error
      `caught` accepts ends the loop with the records so far; any other failure
      propagates. */
  function Collect<T>(outcomes: seq<Result<seq<T>, Error>>, limit: int, caught: Error -> bool): Result<seq<T>, Error>
    decreases |outcomes|
  {
    if |outcomes| == 0 || limit <= 0 then Success([])
    else
      match outcomes[0]
      case Failure(e) => if caught(e) then Success([]) else Failure(e)
      case Success(records) => Prepend(records, Collect(outcomes[1..], limit - 1, caught))
  }

  /** How many pages a scrape loop requests: one per iteration that gets past the limit
      test. */
  function Requested<T>(outcomes: seq<Result<seq<T>, Error>>, limit: int): (n: nat)
    ensures n <= |outcomes| && n <= if limit < 0 then 0 else limit
    decreases |outcomes|
  {
    if |outcomes| == 0 || limit <= 0 then 0
    else if outcomes[0].Failure? then 1
    else 1 + Requested(outcomes[1..], limit - 1)
  }

  /** The records of the successful outcomes, in order. */
  function Records<T>(outcomes: seq<Result<seq<T>, Error>>): seq<T>
    decreases |outcomes|
  {
    if |outcomes| == 0 then []
    else (if outcomes[0].Success? then outcomes[0].value else []) + Records(outcomes[1..])
  }

  /** One iteration of a scrape loop that parsed its page. */
  lemma CollectStep<T>(outcomes: seq<Result<seq<T>, Error>>, limit: int, caught: Error -> bool,
                       records: seq<T>, i: nat)
    requires i < |outcomes| && i < limit && outcomes[i].Success?
    requires Collect(outcomes, limit, caught) == Prepend(records, Collect(outcomes[i..], limit - i, caught))
    ensures Collect(outcomes, limit, caught)
         == Prepend(records + outcomes[i].value, Collect(outcomes[i + 1..], limit - (i + 1), caught))
  {
    assert outcomes[i..][1..] == outcomes[i + 1..];
    var rest := Collect(outcomes[i + 1..], limit - (i + 1), caught);
    if rest.Success? {
      assert records + (outcomes[i].value + rest.value) == records + outcomes[i].value + rest.value;
    }
  }

  lemma RequestedStep<T>(outcomes: seq<Result<seq<T>, Error>>, limit: int, i: nat)
    requires i < |outcomes| && i < limit
    ensures outcomes[i].Failure? ==> Requested(outcomes[i..], limit - i) == 1
    ensures outcomes[i].Success? ==> Requested(outcomes[i..], limit - i) == 1 + Requested(outcomes[i + 1..], limit - (i + 1))
  {
    assert outcomes[i..][1..] == outcomes[i + 1..];
  }

  /** Pages after the first `limit` are never looked at. */
  lemma {:induction false} CollectIgnoresPagesPastLimit<T>(outcomes: seq<Result<seq<T>, Error>>, limit: nat,
                                                           caught: Error -> bool)
    requires limit <= |outcomes|
    ensures Collect(outcomes, limit, caught) == Collect(outcomes[..limit], limit, caught)
    ensures Requested(outcomes, limit) == Requested(outcomes[..limit], limit)
    decreases limit
  {
    if limit > 0 {
      CollectIgnoresPagesPastLimit(outcomes[1..], limit - 1, caught);
      assert outcomes[..limit][1..] == outcomes[1..][..limit - 1];
    }
  }

  /** When every page the loop reaches parses, the result is all their records, in
      order. */
  lemma {:induction false} CollectAllPages<T>(outcomes: seq<Result<seq<T>, Error>>, limit: nat, caught: Error -> bool)
    requires limit <= |outcomes|
    requires forall k | 0 <= k < limit :: outcomes[k].Success?
    ensures Collect(outcomes, limit, caught) == Success(Records(outcomes[..limit]))
    ensures Requested(outcomes, limit) == limit
    decreases limit
  {
    if limit > 0 {
      CollectAllPages(outcomes[1..], limit - 1, caught);
      assert outcomes[..limit][1..] == outcomes[1..][..limit - 1];
    }
  }

  /** A caught failure on page `j` ends the loop with the records of the pages before
      it. */
  lemma {:induction false} CollectKeepsEarlierPages<T>(outcomes: seq<Result<seq<T>, Error>>, limit: int,
                                                       caught: Error -> bool, j: nat)
    requires j < |outcomes| && j < limit
    requires forall k | 0 <= k < j :: outcomes[k].Success?
    requires outcomes[j].Failure? && caught(outcomes[j].error)
    ensures Collect(outcomes, limit, caught) == Success(Records(outcomes[..j]))
    ensures Requested(outcomes, limit) == j + 1
    decreases j
  {
    if j > 0 {
      CollectKeepsEarlierPages(outcomes[1..], limit - 1, caught, j - 1);
      assert outcomes[..j][1..] == outcomes[1..][..j - 1];
    }
  }

  /** Any other failure on page `j` is the loop's failure. */
  lemma {:induction false} CollectPropagates<T>(outcomes: seq<Result<seq<T>, Error>>, limit: int,
                                                caught: Error -> bool, j: nat)
    requires j < |outcomes| && j < limit
    requires forall k | 0 <= k < j :: outcomes[k].Success?
    requires outcomes[j].Failure? && !caught(outcomes[j].error)
    ensures Collect(outcomes, limit, caught) == Failure(outcomes[j].error)
    ensures Requested(outcomes, limit) == j + 1
    decreases j
  {
    if j > 0 {
      CollectPropagates(outcomes[1..], limit - 1, caught, j - 1);
    }
  }

  /** The parse outcome of each page, in query order. */
  function PageOutcomes<P, T>(pages: seq<P>, parse: P -> Result<seq<T>, Error>): (o: seq<Result<seq<T>, Error>>)
    ensures |o| == |pages| && forall i | 0 <= i < |pages| :: o[i] == parse(pages[i])
  {
    seq(|pages|, i requires 0 <= i < |pages| => parse(pages[i]))
  }

  /** A failing page `i` that the loop reaches ends it: with nothing more when the
      failure is caught, with the failure otherwise. */
  lemma CollectStop<T>(outcomes: seq<Result<seq<T>, Error>>, limit: int, caught: Error -> bool, i: nat)
    requires i < |outcomes| && i < limit && outcomes[i].Failure?
    ensures Collect(outcomes[i..], limit - i, caught)
         == if caught(outcomes[i].error) then Success([]) else Failure(outcomes[i].error)
  {
    assert outcomes[i..][0] == outcomes[i];
  }

  /** The loop the scrapers share: page after page in query order while fewer than
      `limit` have been requested, each parsed by `parse`; a caught failure ends the loop
      with the records so far, any other failure propagates. `requested` counts the pages
      requested. */
  method ScrapePages<P, T>(pages: seq<P>, parse: P -> Result<seq<T>, Error>, limit: int, caught: Error -> bool)
    returns (r: Result<seq<T>, Error>, requested: nat)
    ensures r == Collect(PageOutcomes(pages, parse), limit, caught)
    ensures requested == Requested(PageOutcomes(pages, parse), limit)
  {
    ghost var o := PageOutcomes(pages, parse);
    var records: seq<T> := [];
    requested := 0;
    var i := 0;
    assert o[i..] == o;
    PrependNothing(Collect(o, limit, caught));
    while i < |pages|
      invariant 0 <= i <= |pages| && (i > 0 ==> i <= limit)
      invariant Collect(o, limit, caught) == Prepend(records, Collect(o[i..], limit - i, caught))
      invariant Requested(o, limit) == requested + Requested(o[i..], limit - i)
    {
      if i + 1 > limit {
        break;
      }
      requested := requested + 1;
      var parsed := parse(pages[i]);
      RequestedStep(o, limit, i);
      match parsed {
        case Failure(e) =>
          CollectStop(o, limit, caught, i);
          assert records + [] == records;
          if caught(e) {
            return Success(records), requested;
          }
          return Failure(e), requested;
        case Success(more) =>
          CollectStep(o, limit, caught, records, i);
          records := records + more;
      }
      i := i + 1;
    }
    assert records + [] == records;
    r := Success(records);
  }
}
