/** `update/dm_season.py`: the older season updater, which marks each season from 2000
    on as active or not instead of giving it a status. The homepage and the season pages
    enter as values, as in the data-extraction version. */
module DmSeasonUpdate {
  import opened Wrappers
  import opened Exceptions
  import opened SharedDefinitions
  import opened SerieASeasons
  import DmSeason

  /** `Season`: `active` is an integer field filled with a boolean, so it holds 1 or 0. */
  datatype Season = Season(yearStart: int, codeSerieAApi: int, active: int)

  /** `DmSeason.EARLIEST_SEASON`. */
  const EARLIEST_SEASON := 2000

  /** `_find_is_active_season`: some match day is still to be played. */
  function FindIsActiveSeason(days: seq<GameDay>): bool {
    exists i | 0 <= i < |days| :: days[i].categoryStatus == TO_BE_PLAYED
  }

  /** The integer a boolean becomes in an integer field. */
  function Flag(b: bool): int {
    if b then 1 else 0
  }

  /** The seasons kept, each with the activity flag of its page. */
  function SeasonsOf(seasons: seq<(int, int)>, seasonPage: int -> seq<GameDay>): (r: seq<Season>)
    ensures |r| == |seasons|
    ensures forall i | 0 <= i < |seasons| ::
      r[i] == Season(seasons[i].0, seasons[i].1, Flag(FindIsActiveSeason(seasonPage(seasons[i].1))))
  {
    seq(|seasons|, i requires 0 <= i < |seasons| =>
      Season(seasons[i].0, seasons[i].1, Flag(FindIsActiveSeason(seasonPage(seasons[i].1)))))
  }

  lemma SeasonsOfSnoc(seasons: seq<(int, int)>, p: (int, int), seasonPage: int -> seq<GameDay>)
    ensures SeasonsOf(seasons + [p], seasonPage) == SeasonsOf(seasons, seasonPage) + [Season(p.0, p.1, Flag(FindIsActiveSeason(seasonPage(p.1))))]
  {
    assert SeasonsOf(seasons + [p], seasonPage)[|seasons|] == Season(p.0, p.1, Flag(FindIsActiveSeason(seasonPage(p.1))));
  }

  /** What `DmSeason.extract_data` returns. */
  function SeasonsData(homepage: Homepage, seasonPage: int -> seq<GameDay>): Result<seq<Season>, Error> {
    match FindSeasons(homepage)
    case Failure(e) => Failure(e)
    case Success(allSeasons) => Success(SeasonsOf(FilterSeasons(allSeasons, EARLIEST_SEASON), seasonPage))
  }

  /** `DmSeason.extract_data`: every homepage season from 2000 on, in homepage order, with
      its activity flag; earlier seasons are skipped before their page is requested. */
  method ExtractData(homepage: Homepage, seasonPage: int -> seq<GameDay>) returns (r: Result<seq<Season>, Error>)
    ensures r == SeasonsData(homepage, seasonPage)
  {
    var allSeasons :- FindSeasons(homepage);
    var seasons: seq<Season> := [];
    for i := 0 to |allSeasons|
      invariant seasons == SeasonsOf(FilterSeasons(allSeasons[..i], EARLIEST_SEASON), seasonPage)
    {
      FilterSeasonsSnoc(allSeasons, i, EARLIEST_SEASON);
      var (seasonYearStart, seasonApiCode) := allSeasons[i];
      if seasonYearStart < EARLIEST_SEASON {
        continue;
      }
      var season := Season(seasonYearStart, seasonApiCode, Flag(FindIsActiveSeason(seasonPage(seasonApiCode))));
      SeasonsOfSnoc(FilterSeasons(allSeasons[..i], EARLIEST_SEASON), allSeasons[i], seasonPage);
      seasons := seasons + [season];
    }
    assert allSeasons[..|allSeasons|] == allSeasons;
    return Success(seasons);
  }

  /** The seasons returned are exactly the homepage seasons from 2000 on, in homepage
      order, each active (1) iff some match day of its page is still to be played, else
      inactive (0); a season page without match days is inactive. */
  lemma SeasonsDataMeaning(homepage: Homepage, seasonPage: int -> seq<GameDay>)
    ensures FindSeasons(homepage).Failure? ==> SeasonsData(homepage, seasonPage) == Failure(FindSeasons(homepage).error)
    ensures FindSeasons(homepage).Success? ==>
      var all, out := FindSeasons(homepage).value, SeasonsData(homepage, seasonPage).value;
      && |out| == |FilterSeasons(all, EARLIEST_SEASON)|
      && (forall i | 0 <= i < |out| ::
           && (out[i].yearStart, out[i].codeSerieAApi) == FilterSeasons(all, EARLIEST_SEASON)[i]
           && out[i].yearStart >= EARLIEST_SEASON
           && (out[i].active == 1 || out[i].active == 0)
           && (out[i].active == 1 <==>
                exists j | 0 <= j < |seasonPage(out[i].codeSerieAApi)| ::
                  seasonPage(out[i].codeSerieAApi)[j].categoryStatus == TO_BE_PLAYED)
           && (seasonPage(out[i].codeSerieAApi) == [] ==> out[i].active == 0))
      && (forall p | p in all && p.0 >= EARLIEST_SEASON ::
           exists i | 0 <= i < |out| :: (out[i].yearStart, out[i].codeSerieAApi) == p)
  {
    if FindSeasons(homepage).Success? {
      KeptSeasons(FindSeasons(homepage).value, seasonPage);
    }
  }

  /** The same, for the seasons read off the homepage. */
  lemma KeptSeasons(all: seq<(int, int)>, seasonPage: int -> seq<GameDay>)
    ensures var out := SeasonsOf(FilterSeasons(all, EARLIEST_SEASON), seasonPage);
      && |out| == |FilterSeasons(all, EARLIEST_SEASON)|
      && (forall i | 0 <= i < |out| ::
           && (out[i].yearStart, out[i].codeSerieAApi) == FilterSeasons(all, EARLIEST_SEASON)[i]
           && out[i].yearStart >= EARLIEST_SEASON
           && (out[i].active == 1 || out[i].active == 0)
           && (out[i].active == 1 <==>
                exists j | 0 <= j < |seasonPage(out[i].codeSerieAApi)| ::
                  seasonPage(out[i].codeSerieAApi)[j].categoryStatus == TO_BE_PLAYED)
           && (seasonPage(out[i].codeSerieAApi) == [] ==> out[i].active == 0))
      && (forall p | p in all && p.0 >= EARLIEST_SEASON ::
           exists i | 0 <= i < |out| :: (out[i].yearStart, out[i].codeSerieAApi) == p)
  {
    var kept := FilterSeasons(all, EARLIEST_SEASON);
    var out := SeasonsOf(kept, seasonPage);
    FilterSeasonsMembers(all, EARLIEST_SEASON);
    forall i | 0 <= i < |out|
      ensures out[i].yearStart >= EARLIEST_SEASON
    {
      assert kept[i] in kept;
    }
    forall p | p in all && p.0 >= EARLIEST_SEASON
      ensures exists i | 0 <= i < |out| :: (out[i].yearStart, out[i].codeSerieAApi) == p
    {
      var i :| 0 <= i < |kept| && kept[i] == p;
      assert (out[i].yearStart, out[i].codeSerieAApi) == p;
    }
  }

  /** The two updaters agree: a season is active exactly when the newer extractor finds it
      ongoing, or upcoming with at least one match day. */
  lemma ActiveIffNotSettled(days: seq<GameDay>)
    ensures FindIsActiveSeason(days) <==>
      DmSeason.InferStatus(days) == Ongoing || (DmSeason.InferStatus(days) == Upcoming && days != [])
    ensures !FindIsActiveSeason(days) <==>
      DmSeason.InferStatus(days) == Completed || days == []
  {
    DmSeason.InferStatusCases(days);
    if |days| > 0 {
      assert days[0] in days;
    }
  }
}
