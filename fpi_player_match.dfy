/** `st_fpi_player_match.py`: players' performances in a match day, read from the grades
    pages of fantacalcio.it. A grades page enters the model already split into its team
    tables, each a team name and the rows of its players; the HTML traversal and the
    six float grades of a row are not modelled. */
module FpiPlayerMatch {
  import opened Wrappers
  import opened Exceptions
  import opened PyStr
  import opened Utils
  import opened SharedDefinitions
  import opened FantacalcioWebsite
  import opened Extraction

  // ------------------------------------------------------------------ roles

  /** `translate_role`: the Italian initial, in either case, of the role. */
  function TranslateRole(role: string): (r: Result<PlayerRole, Error>)
    ensures r.Success? <==> Lower(role) in {"p", "d", "c", "a"}
    ensures r.Failure? ==> r.error == KeyError(Lower(role))
  {
    var key := Lower(role);
    if key == "p" then Success(Goalkeeper)
    else if key == "d" then Success(Defender)
    else if key == "c" then Success(Midfielder)
    else if key == "a" then Success(Attacker)
    else Failure(KeyError(key))
  }

  /** The letter the site uses for a role: portiere, difensore, centrocampista, attaccante. */
  function RoleLetter(role: PlayerRole): string {
    match role
    case Goalkeeper => "p"
    case Defender => "d"
    case Midfielder => "c"
    case Attacker => "a"
  }

  /** Each role's letter translates back to the role, whatever its case. */
  lemma TranslateRoleRoundTrip(role: PlayerRole)
    ensures TranslateRole(RoleLetter(role)) == Success(role)
    ensures TranslateRole(Upper(RoleLetter(role))) == Success(role)
  {
    assert Lower(Upper(RoleLetter(role))) == RoleLetter(role);
  }

  lemma LowerOfUpper(s: string)
    ensures Lower(Upper(s)) == Lower(s)
  {
    assert forall i | 0 <= i < |s| :: LowerChar(UpperChar(s[i])) == LowerChar(s[i]);
  }

  /** The translation ignores case, errors included. */
  lemma TranslateRoleIgnoresCase(role: string)
    ensures TranslateRole(Upper(role)) == TranslateRole(role)
  {
    LowerOfUpper(role);
  }

  // ------------------------------------------------------------------ one row

  /** What one player row holds: the role's `data-value`, the text of the identity cell,
      the link to the player's page, the markup of the identity and grades cells, and the
      bonus cell as a map from each span's `title` to its `data-value`. */
  datatype PlayerRow = PlayerRow(
    role: string,
    idsText: string,
    url: string,
    idsMarkup: string,
    gradesMarkup: string,
    bonuses: map<string, string>)

  /** A grades page: each team table's name and rows, in page order. */
  type GradesPage = seq<(string, seq<PlayerRow>)>

  datatype Bonuses = Bonuses(
    goalsScored: int,
    goalsConceded: int,
    ownGoals: int,
    penaltiesScored: int,
    penaltiesMissed: int,
    penaltiesSaved: int,
    assists: int)

  /** A `PlayerMatch` without its six grades. */
  datatype PlayerMatch = PlayerMatch(
    matchDayId: string,
    teamName: string,
    name: string,
    codeFpi: int,
    role: PlayerRole,
    bonus: Bonuses,
    yellowCard: bool,
    redCard: bool,
    subbedIn: bool,
    subbedOut: bool)

  /** `_extract_bonus`: the integer of the span titled `title`; subscripting the `None`
      that a missing span gives raises `TypeError`. */
  function ExtractBonus(bonuses: map<string, string>, title: string): (r: Result<int, Error>)
    ensures title !in bonuses ==> r.Failure? && r.error.TypeError?
    ensures title in bonuses ==> (r.Success? <==> ParseInt(bonuses[title]).Some?)
    ensures r.Success? ==> title in bonuses && r.value == ParseInt(bonuses[title]).value
  {
    if title in bonuses then IntOf(bonuses[title])
    else Failure(TypeError("'NoneType' object is not subscriptable"))
  }

  /** The seven bonuses, read in the order the source reads them. */
  function ExtractBonuses(bonuses: map<string, string>): Result<Bonuses, Error> {
    var goalsScored :- ExtractBonus(bonuses, "Gol segnati");
    var goalsConceded :- ExtractBonus(bonuses, "Gol subiti");
    var ownGoals :- ExtractBonus(bonuses, "Autoreti");
    var penaltiesScored :- ExtractBonus(bonuses, "Rigori segnati");
    var penaltiesMissed :- ExtractBonus(bonuses, "Rigori sbagliati");
    var penaltiesSaved :- ExtractBonus(bonuses, "Rigori parati");
    var assists :- ExtractBonus(bonuses, "Assist");
    Success(Bonuses(goalsScored, goalsConceded, ownGoals, penaltiesScored, penaltiesMissed, penaltiesSaved, assists))
  }

  /** The `NonNegativeInt` fields of `PlayerMatch`. */
  predicate NonNegativeBonuses(b: Bonuses) {
    && b.goalsScored >= 0 && b.goalsConceded >= 0 && b.ownGoals >= 0
    && b.penaltiesScored >= 0 && b.penaltiesMissed >= 0 && b.penaltiesSaved >= 0
    && b.assists >= 0
  }

  const COACH_ROLE := "all"

  /** One pass of the inner loop of `parse_match_day_page`: a coach's row is skipped;
      any other row becomes a record, or raises. The code comes from the player's
      address, the bonuses are read, the role is translated, and the record is validated,
      in that order. */
  function ParseRow(matchDayId: string, teamName: string, row: PlayerRow): Result<Option<PlayerMatch>, Error> {
    if row.role == COACH_ROLE then Success(None)
    else
      var code :- StripPlayerIdFromUrl(row.url);
      var bonus :- ExtractBonuses(row.bonuses);
      var role :- TranslateRole(row.role);
      if !NonNegativeBonuses(bonus) then Failure(ValidationError("bonus counts must be non-negative"))
      else
        Success(Some(PlayerMatch(
          matchDayId,
          StripWhitespacesAndNewlines(teamName),
          StripWhitespacesAndNewlines(row.idsText),
          code,
          role,
          bonus,
          Contains(row.gradesMarkup, "yellow-card"),
          Contains(row.gradesMarkup, "red-card"),
          Contains(row.idsMarkup, "Icona subentrato"),
          Contains(row.idsMarkup, "Icona sostituito"))))
  }

  /** A coach's row gives nothing; a player's row that parses gives a record carrying
      the match day, the code read from the address, the translated role, non-negative
      bonuses and the four substring flags. An unknown role is a `KeyError`. */
  lemma ParseRowMeaning(matchDayId: string, teamName: string, row: PlayerRow)
    ensures row.role == COACH_ROLE ==> ParseRow(matchDayId, teamName, row) == Success(None)
    ensures row.role != COACH_ROLE && ParseRow(matchDayId, teamName, row).Success? ==>
      var m := ParseRow(matchDayId, teamName, row).value;
      && m.Some?
      && m.value.matchDayId == matchDayId
      && m.value.teamName == StripWhitespacesAndNewlines(teamName)
      && StripPlayerIdFromUrl(row.url) == Success(m.value.codeFpi)
      && TranslateRole(row.role) == Success(m.value.role)
      && NonNegativeBonuses(m.value.bonus)
      && (m.value.yellowCard <==> Contains(row.gradesMarkup, "yellow-card"))
      && (m.value.redCard <==> Contains(row.gradesMarkup, "red-card"))
      && (m.value.subbedIn <==> Contains(row.idsMarkup, "Icona subentrato"))
      && (m.value.subbedOut <==> Contains(row.idsMarkup, "Icona sostituito"))
    ensures row.role != COACH_ROLE && StripPlayerIdFromUrl(row.url).Success? && ExtractBonuses(row.bonuses).Success?
            && TranslateRole(row.role).Failure? ==>
      ParseRow(matchDayId, teamName, row) == Failure(KeyError(Lower(row.role)))
  {
    if row.role != COACH_ROLE {
      var code := StripPlayerIdFromUrl(row.url);
      var bonus := ExtractBonuses(row.bonuses);
      var role := TranslateRole(row.role);
      if code.Success? && bonus.Success? {
        if role.Failure? {
          assert role.error == KeyError(Lower(row.role));
        } else if NonNegativeBonuses(bonus.value) {
          assert ParseRow(matchDayId, teamName, row).value.value.codeFpi == code.value;
        }
      }
    }
  }

  // ------------------------------------------------------------------ one page

  function RowParser(matchDayId: string): (string, PlayerRow) -> Result<Option<PlayerMatch>, Error> {
    (teamName: string, row: PlayerRow) => ParseRow(matchDayId, teamName, row)
  }

  const NO_PLAYER_MATCH_MESSAGE := "No player match was found in the page."

  /** What `parse_match_day_page` returns for a page. */
  function PageRecords(page: GradesPage, matchDayId: string): Result<seq<PlayerMatch>, Error> {
    match Harvest(Flatten(page), Paired(RowParser(matchDayId)))
    case Failure(e) => Failure(e)
    case Success(output) =>
      if output == [] then Failure(ValueError(NO_PLAYER_MATCH_MESSAGE)) else Success(output)
  }

  /** `parse_match_day_page`: both loops, then the empty-output rule. */
  method ParseMatchDayPage(page: GradesPage, matchDayId: string) returns (r: Result<seq<PlayerMatch>, Error>)
    ensures r == PageRecords(page, matchDayId)
  {
    var output :- HarvestGroups(page, RowParser(matchDayId));
    if |output| == 0 {
      return Failure(ValueError(NO_PLAYER_MATCH_MESSAGE));
    }
    return Success(output);
  }

  /** The number of rows that are not a coach's. */
  function PlayerRows(rows: seq<(string, PlayerRow)>): nat
    decreases |rows|
  {
    if |rows| == 0 then 0
    else PlayerRows(rows[..|rows| - 1]) + (if rows[|rows| - 1].1.role == COACH_ROLE then 0 else 1)
  }

  lemma {:induction false} KeptAreThePlayers(rows: seq<(string, PlayerRow)>, matchDayId: string)
    requires forall i | 0 <= i < |rows| :: Paired(RowParser(matchDayId))(rows[i]).Success?
    ensures CountKept(rows, Paired(RowParser(matchDayId))) == PlayerRows(rows)
    decreases |rows|
  {
    if |rows| > 0 {
      var init := rows[..|rows| - 1];
      assert forall i | 0 <= i < |init| :: init[i] == rows[i];
      KeptAreThePlayers(init, matchDayId);
      var last := rows[|rows| - 1];
      ParseRowMeaning(matchDayId, last.0, last.1);
    }
  }

  /** A page parses into one record per player row, each about the given match day, or
      raises `ValueError` when it holds no player row at all (coaches only, or no row). */
  lemma PageRecordsMeaning(page: GradesPage, matchDayId: string)
    ensures PageRecords(page, matchDayId).Success? ==>
      && |PageRecords(page, matchDayId).value| == PlayerRows(Flatten(page)) > 0
      && forall m | m in PageRecords(page, matchDayId).value :: m.matchDayId == matchDayId
    ensures PlayerRows(Flatten(page)) == 0 && Harvest(Flatten(page), Paired(RowParser(matchDayId))).Success? ==>
      PageRecords(page, matchDayId) == Failure(ValueError(NO_PLAYER_MATCH_MESSAGE))
  {
    var rows, f := Flatten(page), Paired(RowParser(matchDayId));
    HarvestMeaning(rows, f);
    if Harvest(rows, f).Success? {
      KeptAreThePlayers(rows, matchDayId);
      forall m: PlayerMatch | m in Harvest(rows, f).value
        ensures m.matchDayId == matchDayId
      {
        var i :| 0 <= i < |rows| && f(rows[i]) == Success(Some(m));
        ParseRowMeaning(matchDayId, rows[i].0, rows[i].1);
      }
    }
  }

  lemma {:induction false} CoachesAreNoPlayers(rows: seq<(string, PlayerRow)>)
    requires forall i | 0 <= i < |rows| :: rows[i].1.role == COACH_ROLE
    ensures PlayerRows(rows) == 0
    decreases |rows|
  {
    if |rows| > 0 {
      var init := rows[..|rows| - 1];
      assert forall i | 0 <= i < |init| :: init[i] == rows[i];
      CoachesAreNoPlayers(init);
    }
  }

  /** A page holding coaches only raises `ValueError`: coaches are skipped, not
      recorded. */
  lemma CoachesOnlyPageRaises(page: GradesPage, matchDayId: string)
    requires forall i | 0 <= i < |Flatten(page)| :: Flatten(page)[i].1.role == COACH_ROLE
    ensures PageRecords(page, matchDayId) == Failure(ValueError(NO_PLAYER_MATCH_MESSAGE))
  {
    var rows, f := Flatten(page), Paired(RowParser(matchDayId));
    forall i | 0 <= i < |rows|
      ensures f(rows[i]).Success?
    {
      ParseRowMeaning(matchDayId, rows[i].0, rows[i].1);
    }
    HarvestMeaning(rows, f);
    CoachesAreNoPlayers(rows);
    PageRecordsMeaning(page, matchDayId);
  }

  // ------------------------------------------------------------------ the scrape loop

  /** A match day to import, as the query lists it, with the grades page the website
      serves for it. */
  datatype MatchDayToImport = MatchDayToImport(
    seasonYearStart: int,
    matchDayNumber: int,
    matchDayId: string,
    gradesPage: GradesPage)

  /** The grades page of a match day, parsed. */
  function DayParser(): MatchDayToImport -> Result<seq<PlayerMatch>, Error> {
    (d: MatchDayToImport) => PageRecords(d.gradesPage, d.matchDayId)
  }

  function Outcomes(days: seq<MatchDayToImport>): (o: seq<Result<seq<PlayerMatch>, Error>>)
    ensures |o| == |days| && forall i | 0 <= i < |days| :: o[i] == PageRecords(days[i].gradesPage, days[i].matchDayId)
  {
    PageOutcomes(days, DayParser())
  }

  /** `scrape_player_match_data`: at most `maxMatchDaysToScrape` match days in query
      order; a `ValueError` (pydantic's `ValidationError` included) ends the loop with
      the records so far, any other error propagates. `requested` counts the grades
      pages fetched. */
  method ScrapePlayerMatchData(days: seq<MatchDayToImport>, maxMatchDaysToScrape: int)
    returns (r: Result<seq<PlayerMatch>, Error>, requested: nat)
    ensures r == Collect(Outcomes(days), maxMatchDaysToScrape, IsValueError)
    ensures requested == Requested(Outcomes(days), maxMatchDaysToScrape)
  {
    r, requested := ScrapePages(days, DayParser(), maxMatchDaysToScrape, IsValueError);
  }
}
