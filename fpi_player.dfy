/** `st_fpi_player.py`: the player list of each season on fantacalcio.it. A players page
    enters the model as its player rows; the clock reading that stamps a page is a
    parameter. */
module FpiPlayer {
  import opened Wrappers
  import opened Exceptions
  import opened PyStr
  import opened Utils
  import opened SharedDefinitions
  import opened FantacalcioWebsite
  import opened Extraction
  import Fpi = FpiPlayerMatch

  /** One `player-row`: the role's `data-value`, the player's address, and the texts of
      the name, team and price cells. */
  datatype PlayerRow = PlayerRow(
    role: string,
    url: string,
    nameText: string,
    teamText: string,
    priceInitialText: string,
    priceCurrentText: string)

  datatype FpiPlayer = FpiPlayer(
    loadTs: string,
    seasonId: string,
    teamId: string,
    name: string,
    codeFpi: int,
    role: PlayerRole,
    priceInitial: int,
    priceCurrent: int)

  /** A price cell as the `NonNegativeInt` field reads it: a decimal text of a
      non-negative number, else `ValidationError`. */
  function Price(text: string): (r: Result<int, Error>)
    ensures r.Success? <==> ParseInt(text).Some? && ParseInt(text).value >= 0
    ensures r.Success? ==> r.value == ParseInt(text).value
    ensures r.Failure? ==> r.error.ValidationError?
  {
    match ParseInt(text)
    case Some(v) => if v >= 0 then Success(v) else Failure(ValidationError("price must be non-negative"))
    case None => Failure(ValidationError("price is not an integer"))
  }

  /** One pass of the loop of `parse_players_page`: the code is read from the address,
      the role translated, then the record validated. */
  function ParseRow(seasonId: string, loadTs: string, row: PlayerRow): (r: Result<Option<FpiPlayer>, Error>)
    ensures r.Success? <==>
      && StripPlayerIdFromUrl(row.url).Success? && Fpi.TranslateRole(row.role).Success?
      && Price(row.priceInitialText).Success? && Price(row.priceCurrentText).Success?
    ensures r.Success? ==>
      && r.value.Some?
      && r.value.value.seasonId == seasonId && r.value.value.loadTs == loadTs
      && StripPlayerIdFromUrl(row.url) == Success(r.value.value.codeFpi)
      && Fpi.TranslateRole(row.role) == Success(r.value.value.role)
    ensures r.Success? ==>
      && r.value.value.teamId == StripWhitespacesAndNewlines(row.teamText)
      && r.value.value.name == StripWhitespacesAndNewlines(row.nameText)
    ensures r.Success? ==>
      && Price(row.priceInitialText) == Success(r.value.value.priceInitial)
      && Price(row.priceCurrentText) == Success(r.value.value.priceCurrent)
    ensures StripPlayerIdFromUrl(row.url).Failure? ==> r == Failure(StripPlayerIdFromUrl(row.url).error)
    ensures StripPlayerIdFromUrl(row.url).Success? && Fpi.TranslateRole(row.role).Failure? ==>
      r == Failure(KeyError(Lower(row.role)))
    ensures StripPlayerIdFromUrl(row.url).Success? && Fpi.TranslateRole(row.role).Success? && r.Failure? ==>
      r.error.ValidationError?
  {
    var code :- StripPlayerIdFromUrl(row.url);
    var role :- Fpi.TranslateRole(row.role);
    var priceInitial :- Price(row.priceInitialText);
    var priceCurrent :- Price(row.priceCurrentText);
    Success(Some(FpiPlayer(
      loadTs,
      seasonId,
      StripWhitespacesAndNewlines(row.teamText),
      StripWhitespacesAndNewlines(row.nameText),
      code,
      role,
      priceInitial,
      priceCurrent)))
  }

  function RowParser(seasonId: string, loadTs: string): PlayerRow -> Result<Option<FpiPlayer>, Error> {
    (row: PlayerRow) => ParseRow(seasonId, loadTs, row)
  }

  const NO_PLAYER_MESSAGE := "No player match was found in the page."

  /** What `parse_players_page` returns for a page read at time `loadTs`. */
  function PageRecords(rows: seq<PlayerRow>, seasonId: string, loadTs: string): Result<seq<FpiPlayer>, Error> {
    match Harvest(rows, RowParser(seasonId, loadTs))
    case Failure(e) => Failure(e)
    case Success(output) =>
      if output == [] then Failure(ValueError(NO_PLAYER_MESSAGE)) else Success(output)
  }

  method ParsePlayersPage(rows: seq<PlayerRow>, seasonId: string, loadTs: string)
    returns (r: Result<seq<FpiPlayer>, Error>)
    ensures r == PageRecords(rows, seasonId, loadTs)
  {
    var output :- HarvestRows(rows, RowParser(seasonId, loadTs));
    if |output| == 0 {
      return Failure(ValueError(NO_PLAYER_MESSAGE));
    }
    return Success(output);
  }

  /** A page that parses has one record per row, in row order, all stamped with the same
      load time and the given season; a page without rows raises `ValueError`. */
  lemma PageRecordsMeaning(rows: seq<PlayerRow>, seasonId: string, loadTs: string)
    ensures PageRecords(rows, seasonId, loadTs).Success? ==>
      var out := PageRecords(rows, seasonId, loadTs).value;
      && |out| == |rows| > 0
      && forall i | 0 <= i < |rows| ::
        && out[i].loadTs == loadTs && out[i].seasonId == seasonId
        && StripPlayerIdFromUrl(rows[i].url) == Success(out[i].codeFpi)
        && Fpi.TranslateRole(rows[i].role) == Success(out[i].role)
    ensures rows == [] ==> PageRecords(rows, seasonId, loadTs) == Failure(ValueError(NO_PLAYER_MESSAGE))
  {
    var f := RowParser(seasonId, loadTs);
    HarvestMeaning(rows, f);
    if Harvest(rows, f).Success? {
      HarvestOnePerRow(rows, f);
      var out := Harvest(rows, f).value;
      forall i | 0 <= i < |rows|
        ensures out[i].loadTs == loadTs && out[i].seasonId == seasonId
        ensures StripPlayerIdFromUrl(rows[i].url) == Success(out[i].codeFpi)
        ensures Fpi.TranslateRole(rows[i].role) == Success(out[i].role)
      {
        assert ParseRow(seasonId, loadTs, rows[i]) == Success(Some(out[i]));
      }
    }
  }

  // ------------------------------------------------------------------ the scrape loop

  /** A season to import, as the query lists it, with the players page the website serves
      for it and the time its parse reads from the clock. */
  datatype SeasonToImport = SeasonToImport(
    seasonYearStart: int,
    seasonId: string,
    playersPage: seq<PlayerRow>,
    loadTs: string)

  /** The players page of a season, parsed. */
  function SeasonParser(): SeasonToImport -> Result<seq<FpiPlayer>, Error> {
    (s: SeasonToImport) => PageRecords(s.playersPage, s.seasonId, s.loadTs)
  }

  function Outcomes(seasons: seq<SeasonToImport>): (o: seq<Result<seq<FpiPlayer>, Error>>)
    ensures |o| == |seasons|
    ensures forall i | 0 <= i < |seasons| ::
      o[i] == PageRecords(seasons[i].playersPage, seasons[i].seasonId, seasons[i].loadTs)
  {
    PageOutcomes(seasons, SeasonParser())
  }

  const MAX_SEASONS_TO_SCRAPE := 37

  /** `scrape_player_data`: at most `maxMatchDaysToScrape` seasons (the parameter keeps
      its name from the match-day extractor) in query order; a `ValueError` ends the loop
      with the records so far, any other error propagates. */
  method ScrapePlayerData(seasons: seq<SeasonToImport>, maxMatchDaysToScrape: int)
    returns (r: Result<seq<FpiPlayer>, Error>, requested: nat)
    ensures r == Collect(Outcomes(seasons), maxMatchDaysToScrape, IsValueError)
    ensures requested == Requested(Outcomes(seasons), maxMatchDaysToScrape)
  {
    r, requested := ScrapePages(seasons, SeasonParser(), maxMatchDaysToScrape, IsValueError);
  }

  /** An empty players page ends the loop at that season, keeping the earlier seasons'
      records. */
  lemma EmptyPageEndsLoop(seasons: seq<SeasonToImport>, limit: int, j: nat)
    requires j < |seasons| && j < limit
    requires forall k | 0 <= k < j :: Outcomes(seasons)[k].Success?
    requires seasons[j].playersPage == []
    ensures Collect(Outcomes(seasons), limit, IsValueError) == Success(Records(Outcomes(seasons)[..j]))
  {
    PageRecordsMeaning(seasons[j].playersPage, seasons[j].seasonId, seasons[j].loadTs);
    CollectKeepsEarlierPages(Outcomes(seasons), limit, IsValueError, j);
  }
}
