/** `st_fantacalcio_punto_it.py`: the variant of the grades-page extractor that keeps
    coaches. Its rows are read like those of `st_fpi_player_match.py` (the same row and
    bonus model), with its own five-valued role and its own rule for the code. */
module FantacalcioPuntoIt {
  import opened Wrappers
  import opened Exceptions
  import opened PyStr
  import opened Utils
  import opened FantacalcioWebsite
  import opened Extraction
  import Fpi = FpiPlayerMatch

  datatype PlayerRole = Goalkeeper | Defender | Midfielder | Attacker | Coach

  function RoleValue(role: PlayerRole): string {
    match role
    case Goalkeeper => "G"
    case Defender => "D"
    case Midfielder => "M"
    case Attacker => "A"
    case Coach => "C"
  }

  /** `_translate_role`. */
  function TranslateRole(role: string): (r: Result<PlayerRole, Error>)
    ensures r.Success? <==> Lower(role) in {"p", "d", "c", "a", "all."}
    ensures r.Failure? ==> r.error == KeyError(Lower(role))
  {
    var key := Lower(role);
    if key == "p" then Success(Goalkeeper)
    else if key == "d" then Success(Defender)
    else if key == "c" then Success(Midfielder)
    else if key == "a" then Success(Attacker)
    else if key == "all." then Success(Coach)
    else Failure(KeyError(key))
  }

  function RoleLetter(role: PlayerRole): string {
    match role
    case Goalkeeper => "p"
    case Defender => "d"
    case Midfielder => "c"
    case Attacker => "a"
    case Coach => "all."
  }

  /** Each role's label translates back to the role, in lower or upper case. */
  lemma TranslateRoleRoundTrip(role: PlayerRole)
    ensures TranslateRole(RoleLetter(role)) == Success(role)
    ensures TranslateRole(Upper(RoleLetter(role))) == Success(role)
  {
    Fpi.LowerOfUpper(RoleLetter(role));
  }

  /** `int(url.split("/")[-2])`. */
  function CodeFromUrl(url: string): Result<int, Error> {
    var parts := Split(url, "/", -1);
    if |parts| < 2 then Failure(IndexError) else IntOf(parts[|parts| - 2])
  }

  /** The code is the number in the next-to-last segment, whatever the last one is. */
  lemma CodeIsPenultimateSegment(prefix: seq<string>, code: int, last: string)
    requires forall p | p in prefix :: '/' !in p
    requires '/' !in last
    ensures CodeFromUrl(Join("/", prefix + [IntToString(code), last])) == Success(code)
  {
    NoSlashInNumber(code);
    SplitJoin(prefix + [IntToString(code), last], "/");
    ParseIntOfIntToString(code);
  }

  /** An address without `/` has no next-to-last segment. */
  lemma CodeOfSingleSegment(url: string)
    requires '/' !in url
    ensures CodeFromUrl(url) == Failure(IndexError)
  {
    SplitJoin([url], "/");
  }

  datatype PlayerMatch = PlayerMatch(
    matchDayId: string,
    teamName: string,
    name: string,
    code: int,
    role: PlayerRole,
    bonus: Fpi.Bonuses,
    yellowCard: bool,
    redCard: bool,
    subbedIn: bool,
    subbedOut: bool)

  /** One pass of the inner loop of `parse_match_day_page`: every row, coaches included,
      becomes a record or raises. */
  function ParseRow(matchDayId: string, teamName: string, row: Fpi.PlayerRow): (r: Result<Option<PlayerMatch>, Error>)
    ensures r.Success? <==>
      && CodeFromUrl(row.url).Success? && Fpi.ExtractBonuses(row.bonuses).Success?
      && TranslateRole(row.role).Success? && Fpi.NonNegativeBonuses(Fpi.ExtractBonuses(row.bonuses).value)
    ensures r.Success? ==> r.value.Some? && r.value.value.matchDayId == matchDayId
    ensures r.Success? ==> CodeFromUrl(row.url) == Success(r.value.value.code)
    ensures r.Success? ==> TranslateRole(row.role) == Success(r.value.value.role)
    ensures r.Success? ==>
      && r.value.value.teamName == StripWhitespacesAndNewlines(teamName)
      && r.value.value.name == StripWhitespacesAndNewlines(row.idsText)
      && Fpi.ExtractBonuses(row.bonuses) == Success(r.value.value.bonus)
    ensures r.Success? ==>
      && (r.value.value.yellowCard <==> Contains(row.gradesMarkup, "yellow-card"))
      && (r.value.value.redCard <==> Contains(row.gradesMarkup, "red-card"))
      && (r.value.value.subbedIn <==> Contains(row.idsMarkup, "Icona subentrato"))
      && (r.value.value.subbedOut <==> Contains(row.idsMarkup, "Icona sostituito"))
    ensures CodeFromUrl(row.url).Failure? ==> r == Failure(CodeFromUrl(row.url).error)
    ensures CodeFromUrl(row.url).Success? && Fpi.ExtractBonuses(row.bonuses).Failure? ==>
      r == Failure(Fpi.ExtractBonuses(row.bonuses).error)
    ensures CodeFromUrl(row.url).Success? && Fpi.ExtractBonuses(row.bonuses).Success?
            && TranslateRole(row.role).Failure? ==>
      r == Failure(KeyError(Lower(row.role)))
    ensures CodeFromUrl(row.url).Success? && Fpi.ExtractBonuses(row.bonuses).Success?
            && TranslateRole(row.role).Success? && r.Failure? ==>
      r.error.ValidationError?
  {
    var code :- CodeFromUrl(row.url);
    var bonus :- Fpi.ExtractBonuses(row.bonuses);
    var role :- TranslateRole(row.role);
    if !Fpi.NonNegativeBonuses(bonus) then Failure(ValidationError("bonus counts must be non-negative"))
    else
      Success(Some(PlayerMatch(
        matchDayId,
        StripWhitespacesAndNewlines(teamName),
        StripWhitespacesAndNewlines(row.idsText),
        code,
        role,
        bonus,
        Contains(row.gradesMarkup, "yellow-card"),
        Contains(row.gradesMarkup, "red-card"),
        Contains(row.idsMarkup, "Icona subentrato"),
        Contains(row.idsMarkup, "Icona sostituito"))))
  }

  function RowParser(matchDayId: string): (string, Fpi.PlayerRow) -> Result<Option<PlayerMatch>, Error> {
    (teamName: string, row: Fpi.PlayerRow) => ParseRow(matchDayId, teamName, row)
  }

  /** What `parse_match_day_page` returns; an empty page is an empty list. */
  function PageRecords(page: Fpi.GradesPage, matchDayId: string): Result<seq<PlayerMatch>, Error> {
    Harvest(Flatten(page), Paired(RowParser(matchDayId)))
  }

  method ParseMatchDayPage(page: Fpi.GradesPage, matchDayId: string) returns (r: Result<seq<PlayerMatch>, Error>)
    ensures r == PageRecords(page, matchDayId)
  {
    r := HarvestGroups(page, RowParser(matchDayId));
  }

  /** A page that parses has one record per row, in page order, each about the given match
      day, with the code of its row's address (an `all.` row gives a coach's record); a page
      without rows is no error. */
  lemma PageRecordsMeaning(page: Fpi.GradesPage, matchDayId: string)
    ensures PageRecords(page, matchDayId).Success? ==>
      var rows, out := Flatten(page), PageRecords(page, matchDayId).value;
      && |out| == |rows|
      && forall i | 0 <= i < |rows| ::
        && out[i].matchDayId == matchDayId
        && CodeFromUrl(rows[i].1.url) == Success(out[i].code)
        && TranslateRole(rows[i].1.role) == Success(out[i].role)
    ensures Flatten(page) == [] ==> PageRecords(page, matchDayId) == Success([])
  {
    var rows, f := Flatten(page), Paired(RowParser(matchDayId));
    HarvestMeaning(rows, f);
    if Harvest(rows, f).Success? {
      forall i | 0 <= i < |rows|
        ensures f(rows[i]).Success? && f(rows[i]).value.Some?
      {
        assert f(rows[i]) == ParseRow(matchDayId, rows[i].0, rows[i].1);
      }
      HarvestOnePerRow(rows, f);
      var out := Harvest(rows, f).value;
      forall i | 0 <= i < |rows|
        ensures out[i].matchDayId == matchDayId
        ensures CodeFromUrl(rows[i].1.url) == Success(out[i].code)
        ensures TranslateRole(rows[i].1.role) == Success(out[i].role)
      {
        assert ParseRow(matchDayId, rows[i].0, rows[i].1) == Success(Some(out[i]));
      }
    }
  }

  // ------------------------------------------------------------------ the scrape loop

  datatype MatchDayToImport = MatchDayToImport(
    seasonYearStart: int,
    matchDayNumber: int,
    matchDayId: string,
    gradesPage: Fpi.GradesPage)

  /** The page of a match day, parsed. */
  function DayParser(): MatchDayToImport -> Result<seq<PlayerMatch>, Error> {
    (d: MatchDayToImport) => PageRecords(d.gradesPage, d.matchDayId)
  }

  function Outcomes(days: seq<MatchDayToImport>): (o: seq<Result<seq<PlayerMatch>, Error>>)
    ensures |o| == |days| && forall i | 0 <= i < |days| :: o[i] == PageRecords(days[i].gradesPage, days[i].matchDayId)
  {
    PageOutcomes(days, DayParser())
  }

  /** The only error the loop catches: pydantic's `ValidationError`. */
  predicate IsValidationError(e: Error) {
    e.ValidationError? || e.ModelValidationError?
  }

  /** The default bound on the match days of one run: ten seasons of 38. */
  const MAX_MATCH_DAYS_TO_SCRAPE := 38 * 10

  /** `scrape_player_match_data`: at most `maxMatchDaysToScrape` match days in query
      order; a `ValidationError` ends the loop with the records so far, any other error
      (a `ValueError` from `int` included) propagates. */
  method ScrapePlayerMatchData(days: seq<MatchDayToImport>, maxMatchDaysToScrape: int)
    returns (r: Result<seq<PlayerMatch>, Error>, requested: nat)
    ensures r == Collect(Outcomes(days), maxMatchDaysToScrape, IsValidationError)
    ensures r == CollectPausing(Outcomes(days), maxMatchDaysToScrape, Pass)
    ensures requested == Requested(Outcomes(days), maxMatchDaysToScrape)
  {
    r, requested := ScrapePages(days, DayParser(), maxMatchDaysToScrape, IsValidationError);
    PausingThatReturnsIsCollect(Outcomes(days), maxMatchDaysToScrape);
  }

  // ------------------------------------------------------------------ the pause between days

  /** The scrape loop with the pause after each parsed day written out: `pause` is what
      `_sleep_not_to_overload_the_website` gives, returning or raising. */
  function CollectPausing(outcomes: seq<Result<seq<PlayerMatch>, Error>>, limit: int, pause: Outcome<Error>)
    : Result<seq<PlayerMatch>, Error>
    decreases |outcomes|
  {
    if |outcomes| == 0 || limit <= 0 then Success([])
    else
      match outcomes[0]
      case Failure(e) => if IsValidationError(e) then Success([]) else Failure(e)
      case Success(records) =>
        if pause.Fail? then Failure(pause.error)
        else Prepend(records, CollectPausing(outcomes[1..], limit - 1, pause))
  }

  /** The pause as written: the module imports the function `time` from `time`, so
      `time.sleep` looks up an attribute a function does not have. */
  const PAUSE_AS_WRITTEN: Outcome<Error> := Fail(AttributeError("sleep"))

  /** `scrape_player_match_data` as written: it returns only when there is no day to
      take, or the first day raises a `ValidationError`, and then with no records; any
      other first day ends in an error, the pause's when the page parsed. */
  function ScrapeAsWritten(days: seq<MatchDayToImport>, maxMatchDaysToScrape: int): (r: Result<seq<PlayerMatch>, Error>)
    ensures r.Success? ==> r.value == []
    ensures r.Success? <==>
      || days == [] || maxMatchDaysToScrape <= 0
      || (Outcomes(days)[0].Failure? && IsValidationError(Outcomes(days)[0].error))
    ensures r.Failure? ==>
      r.error == (if Outcomes(days)[0].Failure? then Outcomes(days)[0].error else AttributeError("sleep"))
  {
    CollectPausing(Outcomes(days), maxMatchDaysToScrape, PAUSE_AS_WRITTEN)
  }

  /** With a pause that returns, the loop is the one the extractors share. */
  lemma {:induction false} PausingThatReturnsIsCollect(outcomes: seq<Result<seq<PlayerMatch>, Error>>, limit: int)
    ensures CollectPausing(outcomes, limit, Pass) == Collect(outcomes, limit, IsValidationError)
    decreases |outcomes|
  {
    if |outcomes| > 0 && limit > 0 && outcomes[0].Success? {
      PausingThatReturnsIsCollect(outcomes[1..], limit - 1);
    }
  }

  /** The discrepancy: a first day whose page parses makes the scrape fail as written,
      where the loop as meant keeps that day's records at the front of its result. */
  lemma AsWrittenFailsAfterFirstParsedDay(days: seq<MatchDayToImport>, limit: int)
    requires days != [] && limit >= 1 && Outcomes(days)[0].Success?
    ensures ScrapeAsWritten(days, limit) == Failure(AttributeError("sleep"))
    ensures Collect(Outcomes(days), limit, IsValidationError).Success? ==>
      Outcomes(days)[0].value <= Collect(Outcomes(days), limit, IsValidationError).value
  {
  }

  /** A `ValueError` that is not a `ValidationError` (a code that is no number) is not
      caught: it ends the whole extraction, records of earlier days included. */
  lemma ValueErrorIsNotCaught(outcomes: seq<Result<seq<PlayerMatch>, Error>>, limit: int, j: nat)
    requires j < |outcomes| && j < limit
    requires forall k | 0 <= k < j :: outcomes[k].Success?
    requires outcomes[j].Failure? && outcomes[j].error.ValueError?
    ensures Collect(outcomes, limit, IsValidationError) == Failure(outcomes[j].error)
  {
    CollectPropagates(outcomes, limit, IsValidationError, j);
  }
}
