/** `st_fm_player.py`: the player list of Fantamaster. The raw players are what the
    website client returns; the season id and the clock reading are parameters. The
    season id is what `SELECT MIN(season_id)` gives: `None` when no season is ongoing or
    upcoming. */
module FmPlayer {
  import opened Wrappers
  import opened Exceptions
  import opened PyStr
  import opened SharedDefinitions
  import opened Extraction
  import Fpi = FpiPlayerMatch

  /** One raw player: the values under `team`, `id`, `name`, `role` and `value`. */
  datatype RawPlayer = RawPlayer(team: string, id: int, name: string, role: string, value: int)

  datatype FmPlayer = FmPlayer(
    loadTs: string,
    seasonId: string,
    teamId: string,
    codeFm: int,
    name: string,
    role: PlayerRole,
    value: int)

  /** `team.upper()[:3]`. */
  function TeamId(team: string): (r: string)
    ensures |r| == if |team| < 3 then |team| else 3
    ensures forall i | 0 <= i < |r| :: r[i] == UpperChar(team[i])
  {
    var upper := Upper(team);
    if |upper| <= 3 then upper else upper[..3]
  }

  /** The comprehension's body for one raw player: the role is translated while the
      arguments are evaluated, then pydantic validates the `str` season id and the
      `PositiveInt` value, and reports the first field that fails. */
  function ParsePlayer(seasonId: Option<string>, loadTs: string, player: RawPlayer): (r: Result<Option<FmPlayer>, Error>)
    ensures r.Success? <==> Fpi.TranslateRole(player.role).Success? && seasonId.Some? && player.value > 0
    ensures Fpi.TranslateRole(player.role).Failure? ==> r == Failure(KeyError(Lower(player.role)))
    ensures Fpi.TranslateRole(player.role).Success? && (seasonId.None? || player.value <= 0) ==>
      r.Failure? && r.error.ValidationError?
    ensures r.Success? ==>
      r.value == Some(FmPlayer(loadTs, seasonId.value, TeamId(player.team), player.id, player.name,
                               Fpi.TranslateRole(player.role).value, player.value))
  {
    var role :- Fpi.TranslateRole(player.role);
    match seasonId
    case None => Failure(ValidationError("season_id: input should be a valid string"))
    case Some(season) =>
      if player.value <= 0 then Failure(ValidationError("value: input should be greater than 0"))
      else Success(Some(FmPlayer(loadTs, season, TeamId(player.team), player.id, player.name, role, player.value)))
  }

  function PlayerParser(seasonId: Option<string>, loadTs: string): RawPlayer -> Result<Option<FmPlayer>, Error> {
    (player: RawPlayer) => ParsePlayer(seasonId, loadTs, player)
  }

  /** `scrape_player_data`: one record per raw player, or the first player's error. */
  function ScrapePlayerData(rawPlayers: seq<RawPlayer>, seasonId: Option<string>, loadTs: string): Result<seq<FmPlayer>, Error> {
    Harvest(rawPlayers, PlayerParser(seasonId, loadTs))
  }

  /** The list has exactly one record per raw player, in input order, with the first three
      upper-cased letters of the team, the shared load time and season, and a positive
      value; it fails iff some player has an unknown role, no season or a value that is
      not positive, and then with the first such player's error. */
  lemma ScrapePlayerDataMeaning(rawPlayers: seq<RawPlayer>, seasonId: Option<string>, loadTs: string)
    ensures ScrapePlayerData(rawPlayers, seasonId, loadTs).Success? <==>
      forall i | 0 <= i < |rawPlayers| ::
        Fpi.TranslateRole(rawPlayers[i].role).Success? && seasonId.Some? && rawPlayers[i].value > 0
    ensures ScrapePlayerData(rawPlayers, seasonId, loadTs).Success? ==>
      var out := ScrapePlayerData(rawPlayers, seasonId, loadTs).value;
      && |out| == |rawPlayers|
      && forall i | 0 <= i < |rawPlayers| ::
        && out[i].loadTs == loadTs && seasonId == Some(out[i].seasonId)
        && out[i].teamId == TeamId(rawPlayers[i].team)
        && out[i].codeFm == rawPlayers[i].id && out[i].name == rawPlayers[i].name
        && Fpi.TranslateRole(rawPlayers[i].role) == Success(out[i].role)
        && out[i].value == rawPlayers[i].value > 0
    ensures ScrapePlayerData(rawPlayers, seasonId, loadTs).Failure? ==>
      exists i | 0 <= i < |rawPlayers| ::
        && ParsePlayer(seasonId, loadTs, rawPlayers[i]) == Failure(ScrapePlayerData(rawPlayers, seasonId, loadTs).error)
        && forall j | 0 <= j < i :: ParsePlayer(seasonId, loadTs, rawPlayers[j]).Success?
  {
    var f := PlayerParser(seasonId, loadTs);
    HarvestMeaning(rawPlayers, f);
    if Harvest(rawPlayers, f).Success? {
      HarvestOnePerRow(rawPlayers, f);
      var out := Harvest(rawPlayers, f).value;
      forall i | 0 <= i < |rawPlayers|
        ensures out[i].loadTs == loadTs && seasonId == Some(out[i].seasonId)
        ensures out[i].teamId == TeamId(rawPlayers[i].team)
        ensures out[i].codeFm == rawPlayers[i].id && out[i].name == rawPlayers[i].name
        ensures Fpi.TranslateRole(rawPlayers[i].role) == Success(out[i].role)
        ensures out[i].value == rawPlayers[i].value > 0
      {
        assert ParsePlayer(seasonId, loadTs, rawPlayers[i]) == Success(Some(out[i]));
      }
    }
  }

  /** Without an ongoing or upcoming season, a list whose roles all translate fails as soon
      as it holds a player: with `ValidationError`, whatever the values. */
  lemma NoSeasonRejectsEveryList(rawPlayers: seq<RawPlayer>, loadTs: string)
    requires rawPlayers != []
    requires forall i | 0 <= i < |rawPlayers| :: Fpi.TranslateRole(rawPlayers[i].role).Success?
    ensures ScrapePlayerData(rawPlayers, None, loadTs).Failure?
    ensures ScrapePlayerData(rawPlayers, None, loadTs).error.ValidationError?
  {
    ScrapePlayerDataMeaning(rawPlayers, None, loadTs);
  }

  lemma TeamIdOfInter()
    ensures TeamId("Inter") == "INT"
  {
  }
}
