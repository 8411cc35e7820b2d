/** `st_match.py`: the matches of each match day, from the Serie A website's match-day
    pages. A page enters the model as the entries of its `data` list; the date and time
    the source derives from `match_datetime` are not modelled. */
module StMatch {
  import opened Wrappers
  import opened Exceptions
  import opened PyStr
  import opened SharedDefinitions
  import opened Extraction

  /** `_map_status`: the website's numeric match status. */
  function MapStatus(externalStatus: int): (r: Result<Status, Error>)
    ensures r.Success? <==> externalStatus in {0, 1, 2}
    ensures r.Failure? ==>
      r.error == ValueError("Cannot handle unknown match status " + IntToString(externalStatus))
  {
    if externalStatus == 0 then Success(Upcoming)
    else if externalStatus == 1 then Success(Ongoing)
    else if externalStatus == 2 then Success(Completed)
    else Failure(ValueError("Cannot handle unknown match status " + IntToString(externalStatus)))
  }

  function StatusCode(s: Status): int {
    match s
    case Upcoming => 0
    case Ongoing => 1
    case Completed => 2
  }

  /** Each status is the image of exactly one code. */
  lemma MapStatusRoundTrip(s: Status, code: int)
    ensures MapStatus(StatusCode(s)) == Success(s)
    ensures MapStatus(code).Success? ==> StatusCode(MapStatus(code).value) == code
  {
  }

  /** One entry of a match-day page's `data`. */
  datatype MatchEntry = MatchEntry(
    matchId: int,
    awayTeamShortName: string,
    awayTeamName: string,
    homeTeamShortName: string,
    homeTeamName: string,
    awayGoal: int,
    awayPenaltyGoal: int,
    homeGoal: int,
    homePenaltyGoal: int,
    awaySchema: string,
    homeSchema: string,
    minutesPlayed: int,
    matchStatus: int,
    awayCoachId: int,
    awayCoachName: string,
    awayCoachSurname: string,
    homeCoachId: int,
    homeCoachName: string,
    homeCoachSurname: string)

  /** `Match`, without `date` and `time`. */
  datatype Match = Match(
    matchDayId: string,
    matchCodeSerieAApi: int,
    awayTeamId: string,
    awayTeamName: string,
    homeTeamId: string,
    homeTeamName: string,
    awayGoals: int,
    awayPenaltyGoals: int,
    homeGoals: int,
    homePenaltyGoals: int,
    awaySchema: string,
    homeSchema: string,
    durationMinutes: int,
    status: Status,
    awayCoachCodeSerieAApi: int,
    awayCoachName: string,
    awayCoachSurname: string,
    homeCoachCodeSerieAApi: int,
    homeCoachName: string,
    homeCoachSurname: string)

  /** The field constraints of `Match`: non-negative goal counts, a duration in
      [0, 120]. */
  predicate WithinBounds(m: Match) {
    && m.awayGoals >= 0 && m.awayPenaltyGoals >= 0 && m.homeGoals >= 0 && m.homePenaltyGoals >= 0
    && 0 <= m.durationMinutes <= 120
  }

  /** An entry as a `Match`: the status is mapped while the arguments are evaluated,
      then the record is validated. */
  function ParseEntry(matchDayId: string, e: MatchEntry): (r: Result<Option<Match>, Error>)
    ensures r.Success? ==> r.value.Some? && r.value.value.matchDayId == matchDayId && WithinBounds(r.value.value)
    ensures r.Success? ==> MapStatus(e.matchStatus) == Success(r.value.value.status)
    ensures r.Success? ==> r.value.value.matchCodeSerieAApi == e.matchId
    ensures r.Success? ==> var m := r.value.value;
      && m.awayTeamId == e.awayTeamShortName && m.awayTeamName == e.awayTeamName
      && m.homeTeamId == e.homeTeamShortName && m.homeTeamName == e.homeTeamName
    ensures r.Success? ==> var m := r.value.value;
      && m.awayGoals == e.awayGoal && m.awayPenaltyGoals == e.awayPenaltyGoal
      && m.homeGoals == e.homeGoal && m.homePenaltyGoals == e.homePenaltyGoal
    ensures r.Success? ==> var m := r.value.value;
      && m.awaySchema == e.awaySchema && m.homeSchema == e.homeSchema
      && m.durationMinutes == e.minutesPlayed
    ensures r.Success? ==> var m := r.value.value;
      && m.awayCoachCodeSerieAApi == e.awayCoachId
      && m.awayCoachName == e.awayCoachName && m.awayCoachSurname == e.awayCoachSurname
      && m.homeCoachCodeSerieAApi == e.homeCoachId
      && m.homeCoachName == e.homeCoachName && m.homeCoachSurname == e.homeCoachSurname
    ensures MapStatus(e.matchStatus).Success? ==>
      (r.Success? <==> e.awayGoal >= 0 && e.awayPenaltyGoal >= 0 && e.homeGoal >= 0 && e.homePenaltyGoal >= 0
                       && 0 <= e.minutesPlayed <= 120)
    ensures MapStatus(e.matchStatus).Success? && r.Failure? ==> r.error.ValidationError?
    ensures MapStatus(e.matchStatus).Failure? ==> r == Failure(MapStatus(e.matchStatus).error)
  {
    var status :- MapStatus(e.matchStatus);
    var m := Match(
      matchDayId, e.matchId,
      e.awayTeamShortName, e.awayTeamName, e.homeTeamShortName, e.homeTeamName,
      e.awayGoal, e.awayPenaltyGoal, e.homeGoal, e.homePenaltyGoal,
      e.awaySchema, e.homeSchema, e.minutesPlayed, status,
      e.awayCoachId, e.awayCoachName, e.awayCoachSurname,
      e.homeCoachId, e.homeCoachName, e.homeCoachSurname);
    if WithinBounds(m) then Success(Some(m)) else Failure(ValidationError("match fields out of bounds"))
  }

  function EntryParser(): (string, MatchEntry) -> Result<Option<Match>, Error> {
    (matchDayId: string, e: MatchEntry) => ParseEntry(matchDayId, e)
  }

  /** A match day to import, as the query lists it, with the entries of the page the
      website serves for its code. */
  datatype MatchDayToImport = MatchDayToImport(matchDayId: string, matchDayApiCode: int, data: seq<MatchEntry>)

  function Groups(days: seq<MatchDayToImport>): (g: seq<(string, seq<MatchEntry>)>)
    ensures |g| == |days| && forall i | 0 <= i < |days| :: g[i] == (days[i].matchDayId, days[i].data)
  {
    seq(|days|, i requires 0 <= i < |days| => (days[i].matchDayId, days[i].data))
  }

  /** What `scrape_match_data` returns. */
  function Matches(days: seq<MatchDayToImport>): Result<seq<Match>, Error> {
    Harvest(Flatten(Groups(days)), Paired(EntryParser()))
  }

  /** `scrape_match_data`: for each match day, for each entry of its page, one `Match`;
      nothing is caught. */
  method ScrapeMatchData(days: seq<MatchDayToImport>) returns (r: Result<seq<Match>, Error>)
    ensures r == Matches(days)
  {
    r := HarvestGroups(Groups(days), EntryParser());
  }

  /** The matches are one per entry, match days in query order and entries in page order,
      each tagged with its match day and within the field bounds; they are produced iff
      every entry has a known status and in-bounds fields. */
  lemma MatchesMeaning(days: seq<MatchDayToImport>)
    ensures Matches(days).Success? <==>
      forall i | 0 <= i < |Flatten(Groups(days))| :: ParseEntry(Flatten(Groups(days))[i].0, Flatten(Groups(days))[i].1).Success?
    ensures Matches(days).Success? ==>
      var rows, out := Flatten(Groups(days)), Matches(days).value;
      && |out| == |rows|
      && forall i | 0 <= i < |rows| ::
        && out[i].matchDayId == rows[i].0
        && out[i].matchCodeSerieAApi == rows[i].1.matchId
        && WithinBounds(out[i])
  {
    var rows, f := Flatten(Groups(days)), Paired(EntryParser());
    assert forall i | 0 <= i < |rows| :: f(rows[i]) == ParseEntry(rows[i].0, rows[i].1);
    HarvestMeaning(rows, f);
    if Harvest(rows, f).Success? {
      HarvestOnePerRow(rows, f);
      var out := Harvest(rows, f).value;
      forall i | 0 <= i < |rows|
        ensures out[i].matchDayId == rows[i].0
        ensures out[i].matchCodeSerieAApi == rows[i].1.matchId
        ensures WithinBounds(out[i])
      {
        assert ParseEntry(rows[i].0, rows[i].1) == Success(Some(out[i]));
      }
    }
  }

  /** The entries of one match day come before the next day's. */
  lemma MatchDaysInOrder(days: seq<MatchDayToImport>, more: seq<MatchDayToImport>)
    requires Matches(days).Success? && Matches(more).Success?
    ensures Matches(days + more) == Success(Matches(days).value + Matches(more).value)
  {
    assert Groups(days + more) == Groups(days) + Groups(more);
    FlattenAppend(Groups(days), Groups(more));
    HarvestAppend(Flatten(Groups(days)), Flatten(Groups(more)), Paired(EntryParser()));
  }
}
