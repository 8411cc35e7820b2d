/** `dm_match_day.py`: the match days of every season from the ongoing one on, from the
    Serie A website. The homepage and the season pages enter the model as values: the
    homepage as its season selector, the pages as a function from a season's api code to
    the `data` of its page. The database lookup of the ongoing season enters as the start
    years it returns, or `None` when the season table does not exist. The module's own
    `Status` enum has the same members and values as the shared one, which the model
    uses. */
module DmMatchDay {
  import opened Wrappers
  import opened Exceptions
  import opened PyStr
  import opened SharedDefinitions
  import opened FantacalcioWebsite
  import opened Extraction
  import opened SerieASeasons

  datatype MatchDay = MatchDay(
    seasonCodeSerieAApi: int,
    seasonYearStart: int,
    codeSerieAApi: int,
    number: int,
    status: Status)

  /** The match-day numbers a season has. */
  const FIRST_MATCH_DAY := 1
  const LAST_MATCH_DAY := 38

  /** `_map_status`: the website's match-day status label. */
  function MapStatus(externalStatus: string): (r: Result<Status, Error>)
    ensures r.Success? <==> externalStatus in {"PLAYED", "TO BE PLAYED", "POSTPONED", "LIVE"}
    ensures r.Failure? ==> r.error == ValueError("Cannot handle unknown match status " + externalStatus)
  {
    if externalStatus == "PLAYED" then Success(Completed)
    else if externalStatus == "TO BE PLAYED" then Success(Upcoming)
    else if externalStatus == "POSTPONED" then Success(Upcoming)
    else if externalStatus == "LIVE" then Success(Ongoing)
    else Failure(ValueError("Cannot handle unknown match status " + externalStatus))
  }

  /** The labels the website uses for each status. */
  function Labels(s: Status): set<string> {
    match s
    case Completed => {"PLAYED"}
    case Upcoming => {"TO BE PLAYED", "POSTPONED"}
    case Ongoing => {"LIVE"}
  }

  /** A label maps to a status exactly when it is one of that status's labels: `PLAYED`
      is completed, `TO BE PLAYED` and `POSTPONED` are upcoming, `LIVE` is ongoing. */
  lemma MapStatusLabels(externalStatus: string, s: Status)
    ensures MapStatus(externalStatus) == Success(s) <==> externalStatus in Labels(s)
  {
  }

  /** What `_filter_seasons` returns. */
  function RelevantSeasons(seasons: seq<(int, int)>, earliestSeason: int): (r: seq<(int, int)>)
    ensures forall p | p in r :: p in seasons && p.0 >= earliestSeason
    ensures forall p | p in seasons && p.0 >= earliestSeason :: p in r
  {
    FilterSeasonsMembers(seasons, earliestSeason);
    FilterSeasons(seasons, earliestSeason)
  }

  /** The entry of one match day as a `MatchDay`: its number and status are read while the
      arguments are evaluated, then the number is validated. */
  function ParseEntry(season: (int, int), entry: GameDay): (r: Result<Option<MatchDay>, Error>)
    ensures r.Success? ==>
      && r.value.Some?
      && r.value.value.seasonYearStart == season.0
      && r.value.value.seasonCodeSerieAApi == season.1
      && r.value.value.codeSerieAApi == entry.idCategory
      && ParseInt(entry.description) == Some(r.value.value.number)
      && FIRST_MATCH_DAY <= r.value.value.number <= LAST_MATCH_DAY
      && MapStatus(entry.categoryStatus) == Success(r.value.value.status)
    ensures r.Success? <==>
      && ParseInt(entry.description).Some?
      && FIRST_MATCH_DAY <= ParseInt(entry.description).value <= LAST_MATCH_DAY
      && MapStatus(entry.categoryStatus).Success?
    ensures ParseInt(entry.description).None? ==> r.Failure? && r.error.ValueError?
  {
    var number :- IntOf(entry.description);
    var status :- MapStatus(entry.categoryStatus);
    if !(FIRST_MATCH_DAY <= number <= LAST_MATCH_DAY) then
      Failure(ValidationError("number must lie between 1 and 38"))
    else
      Success(Some(MatchDay(season.1, season.0, entry.idCategory, number, status)))
  }

  function EntryParser(): ((int, int), GameDay) -> Result<Option<MatchDay>, Error> {
    (season: (int, int), entry: GameDay) => ParseEntry(season, entry)
  }

  /** Each season with the `data` of its page. */
  function Groups(seasons: seq<(int, int)>, seasonPage: int -> seq<GameDay>): (g: seq<((int, int), seq<GameDay>)>)
    ensures |g| == |seasons| && forall i | 0 <= i < |seasons| :: g[i] == (seasons[i], seasonPage(seasons[i].1))
  {
    seq(|seasons|, i requires 0 <= i < |seasons| => (seasons[i], seasonPage(seasons[i].1)))
  }

  /** What `_scrape_match_day_data_from_the_web` returns. */
  function MatchDays(seasons: seq<(int, int)>, seasonPage: int -> seq<GameDay>): Result<seq<MatchDay>, Error> {
    Harvest(Flatten(Groups(seasons, seasonPage)), Paired(EntryParser()))
  }

  /** `_scrape_match_day_data_from_the_web`: for each season, for each entry of its page,
      one `MatchDay`. */
  method ScrapeMatchDayDataFromTheWeb(seasons: seq<(int, int)>, seasonPage: int -> seq<GameDay>)
    returns (r: Result<seq<MatchDay>, Error>)
    ensures r == MatchDays(seasons, seasonPage)
  {
    r := HarvestGroups(Groups(seasons, seasonPage), EntryParser());
  }

  /** What `scrape_match_day_data` returns. */
  function MatchDayData(homepage: Homepage, ongoingYearStarts: Option<seq<int>>, seasonPage: int -> seq<GameDay>)
    : Result<seq<MatchDay>, Error>
  {
    match FindSeasons(homepage)
    case Failure(e) => Failure(e)
    case Success(allSeasons) =>
      MatchDays(RelevantSeasons(allSeasons, EarliestSeason(ongoingYearStarts)), seasonPage)
  }

  /** `scrape_match_day_data`: the seasons are read from the homepage, the earliest season
      is looked up, overwriting the `earliestSeason` argument, and the match days of the
      seasons from it on are scraped. The result does not mention the argument: it has no
      effect. */
  method ScrapeMatchDayData(
    homepage: Homepage,
    ongoingYearStarts: Option<seq<int>>,
    seasonPage: int -> seq<GameDay>,
    earliestSeason: int)
    returns (r: Result<seq<MatchDay>, Error>)
    ensures r == MatchDayData(homepage, ongoingYearStarts, seasonPage)
  {
    var allSeasons :- FindSeasons(homepage);
    var earliest := earliestSeason;
    earliest := EarliestSeason(ongoingYearStarts);
    var relevantSeasons := RelevantSeasons(allSeasons, earliest);
    r := ScrapeMatchDayDataFromTheWeb(relevantSeasons, seasonPage);
  }

  /** The match days are one per page entry, seasons in the order given and entries in
      page order, each carrying its season and a number between 1 and 38; they are
      produced iff every entry has a number in that range and a known status. */
  lemma MatchDaysMeaning(seasons: seq<(int, int)>, seasonPage: int -> seq<GameDay>)
    ensures MatchDays(seasons, seasonPage).Success? <==>
      forall row | row in Flatten(Groups(seasons, seasonPage)) :: ParseEntry(row.0, row.1).Success?
    ensures MatchDays(seasons, seasonPage).Success? ==>
      var rows, out := Flatten(Groups(seasons, seasonPage)), MatchDays(seasons, seasonPage).value;
      && |out| == |rows|
      && forall i | 0 <= i < |rows| ::
        && out[i].seasonYearStart == rows[i].0.0
        && out[i].seasonCodeSerieAApi == rows[i].0.1
        && out[i].codeSerieAApi == rows[i].1.idCategory
        && FIRST_MATCH_DAY <= out[i].number <= LAST_MATCH_DAY
  {
    var rows, f := Flatten(Groups(seasons, seasonPage)), Paired(EntryParser());
    assert forall i | 0 <= i < |rows| :: f(rows[i]) == ParseEntry(rows[i].0, rows[i].1);
    HarvestMeaning(rows, f);
    assert (forall i | 0 <= i < |rows| :: f(rows[i]).Success?) <==>
           (forall row | row in rows :: ParseEntry(row.0, row.1).Success?);
    if Harvest(rows, f).Success? {
      HarvestOnePerRow(rows, f);
      var out := Harvest(rows, f).value;
      forall i | 0 <= i < |rows|
        ensures out[i].seasonYearStart == rows[i].0.0
        ensures out[i].seasonCodeSerieAApi == rows[i].0.1
        ensures out[i].codeSerieAApi == rows[i].1.idCategory
        ensures FIRST_MATCH_DAY <= out[i].number <= LAST_MATCH_DAY
      {
        assert ParseEntry(rows[i].0, rows[i].1) == Success(Some(out[i]));
      }
    }
  }

  /** The match days of one season come before those of the next. */
  lemma SeasonsInOrder(seasons: seq<(int, int)>, more: seq<(int, int)>, seasonPage: int -> seq<GameDay>)
    requires MatchDays(seasons, seasonPage).Success? && MatchDays(more, seasonPage).Success?
    ensures MatchDays(seasons + more, seasonPage) == Success(MatchDays(seasons, seasonPage).value + MatchDays(more, seasonPage).value)
  {
    var a, b := Groups(seasons, seasonPage), Groups(more, seasonPage);
    GroupsAppend(seasons, more, seasonPage);
    FlattenAppend(a, b);
    HarvestAppend(Flatten(a), Flatten(b), Paired(EntryParser()));
  }

  lemma GroupsAppend(seasons: seq<(int, int)>, more: seq<(int, int)>, seasonPage: int -> seq<GameDay>)
    ensures Groups(seasons + more, seasonPage) == Groups(seasons, seasonPage) + Groups(more, seasonPage)
  {
    var a, b, c := Groups(seasons, seasonPage), Groups(more, seasonPage), Groups(seasons + more, seasonPage);
    forall i | 0 <= i < |c|
      ensures c[i] == (a + b)[i]
    {
      if i < |a| {
        assert (seasons + more)[i] == seasons[i];
      } else {
        assert (seasons + more)[i] == more[i - |a|];
      }
    }
  }

  /** Only seasons from the earliest one on are scraped: every match day returned belongs
      to a homepage season whose start year is at least the ongoing season's (or 2000). */
  lemma MatchDayDataFromEarliestSeason(homepage: Homepage, ongoingYearStarts: Option<seq<int>>, seasonPage: int -> seq<GameDay>)
    requires MatchDayData(homepage, ongoingYearStarts, seasonPage).Success?
    ensures FindSeasons(homepage).Success?
    ensures forall m | m in MatchDayData(homepage, ongoingYearStarts, seasonPage).value ::
      && (m.seasonYearStart, m.seasonCodeSerieAApi) in FindSeasons(homepage).value
      && m.seasonYearStart >= EarliestSeason(ongoingYearStarts)
  {
    var allSeasons := FindSeasons(homepage).value;
    var seasons := RelevantSeasons(allSeasons, EarliestSeason(ongoingYearStarts));
    var rows, out := Flatten(Groups(seasons, seasonPage)), MatchDays(seasons, seasonPage).value;
    MatchDaysMeaning(seasons, seasonPage);
    FlattenKeys(Groups(seasons, seasonPage));
    forall m | m in out
      ensures (m.seasonYearStart, m.seasonCodeSerieAApi) in allSeasons
      ensures m.seasonYearStart >= EarliestSeason(ongoingYearStarts)
    {
      var i :| 0 <= i < |out| && out[i] == m;
      var k :| 0 <= k < |seasons| && Groups(seasons, seasonPage)[k].0 == rows[i].0;
      assert seasons[k] in seasons;
    }
  }
}
