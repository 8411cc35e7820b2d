/** `data_extraction/table_specific_extractors/dm_season.py`: the seasons from the
    ongoing one on, each with a status inferred from its match days. As in the match-day
    extractor, the homepage enters as its season selector, the season pages as a function
    from api code to the `data` of the page, and the database lookup as the start years it
    returns. */
module DmSeason {
  import opened Wrappers
  import opened Exceptions
  import opened SharedDefinitions
  import opened SerieASeasons

  datatype Season = Season(yearStart: int, codeSerieAApi: int, status: Status)

  /** `_infer_status`. */
  function InferStatus(days: seq<GameDay>): Status {
    if forall i | 0 <= i < |days| :: days[i].categoryStatus == TO_BE_PLAYED then Upcoming
    else if exists i | 0 <= i < |days| :: days[i].categoryStatus == TO_BE_PLAYED then Ongoing
    else Completed
  }

  /** A season is upcoming when every match day is still to be played (so also when it
      has none), ongoing when some but not all are, completed when it has match days and
      none is. */
  lemma InferStatusCases(days: seq<GameDay>)
    ensures InferStatus(days) == Upcoming <==> forall i | 0 <= i < |days| :: days[i].categoryStatus == TO_BE_PLAYED
    ensures InferStatus(days) == Ongoing <==>
      && (exists i | 0 <= i < |days| :: days[i].categoryStatus == TO_BE_PLAYED)
      && (exists i | 0 <= i < |days| :: days[i].categoryStatus != TO_BE_PLAYED)
    ensures InferStatus(days) == Completed <==>
      |days| > 0 && forall i | 0 <= i < |days| :: days[i].categoryStatus != TO_BE_PLAYED
  {
    if |days| > 0 {
      assert days[0] in days;
    }
  }

  /** How many match days are still to be played. */
  function ToBePlayed(days: seq<GameDay>): (n: nat)
    ensures n <= |days|
    decreases |days|
  {
    if |days| == 0 then 0
    else ToBePlayed(days[..|days| - 1]) + (if days[|days| - 1].categoryStatus == TO_BE_PLAYED then 1 else 0)
  }

  /** The counts behind the rule: none left is all played, all left is none played. */
  lemma {:induction false} ToBePlayedBounds(days: seq<GameDay>)
    ensures ToBePlayed(days) == |days| <==> forall i | 0 <= i < |days| :: days[i].categoryStatus == TO_BE_PLAYED
    ensures ToBePlayed(days) == 0 <==> forall i | 0 <= i < |days| :: days[i].categoryStatus != TO_BE_PLAYED
    decreases |days|
  {
    if |days| > 0 {
      var init := days[..|days| - 1];
      ToBePlayedBounds(init);
      assert forall i | 0 <= i < |init| :: init[i] == days[i];
    }
  }

  /** The status read off the number of match days still to be played. */
  lemma InferStatusByCount(days: seq<GameDay>)
    ensures InferStatus(days) == Upcoming <==> ToBePlayed(days) == |days|
    ensures InferStatus(days) == Ongoing <==> 0 < ToBePlayed(days) < |days|
    ensures InferStatus(days) == Completed <==> 0 == ToBePlayed(days) < |days|
  {
    ToBePlayedBounds(days);
    InferStatusCases(days);
  }

  /** The seasons kept, each with the status of its page. */
  function SeasonsOf(seasons: seq<(int, int)>, seasonPage: int -> seq<GameDay>): (r: seq<Season>)
    ensures |r| == |seasons|
    ensures forall i | 0 <= i < |seasons| ::
      r[i] == Season(seasons[i].0, seasons[i].1, InferStatus(seasonPage(seasons[i].1)))
  {
    seq(|seasons|, i requires 0 <= i < |seasons| =>
      Season(seasons[i].0, seasons[i].1, InferStatus(seasonPage(seasons[i].1))))
  }

  lemma SeasonsOfSnoc(seasons: seq<(int, int)>, p: (int, int), seasonPage: int -> seq<GameDay>)
    ensures SeasonsOf(seasons + [p], seasonPage) == SeasonsOf(seasons, seasonPage) + [Season(p.0, p.1, InferStatus(seasonPage(p.1)))]
  {
    assert SeasonsOf(seasons + [p], seasonPage)[|seasons|] == Season(p.0, p.1, InferStatus(seasonPage(p.1)));
  }

  /** What `scrape_data_from_the_web` returns. */
  function SeasonsData(homepage: Homepage, seasonPage: int -> seq<GameDay>, minSeason: int): Result<seq<Season>, Error> {
    match FindSeasons(homepage)
    case Failure(e) => Failure(e)
    case Success(allSeasons) => Success(SeasonsOf(FilterSeasons(allSeasons, minSeason), seasonPage))
  }

  /** `scrape_data_from_the_web`: every homepage season from `minSeason` on, in homepage
      order, with the status of its page; earlier seasons are skipped before their page is
      requested. */
  method ScrapeDataFromTheWeb(homepage: Homepage, seasonPage: int -> seq<GameDay>, minSeason: int)
    returns (r: Result<seq<Season>, Error>)
    ensures r == SeasonsData(homepage, seasonPage, minSeason)
  {
    var allSeasons :- FindSeasons(homepage);
    var seasons: seq<Season> := [];
    for i := 0 to |allSeasons|
      invariant seasons == SeasonsOf(FilterSeasons(allSeasons[..i], minSeason), seasonPage)
    {
      FilterSeasonsSnoc(allSeasons, i, minSeason);
      var (seasonYearStart, seasonApiCode) := allSeasons[i];
      if seasonYearStart < minSeason {
        continue;
      }
      var season := Season(seasonYearStart, seasonApiCode, InferStatus(seasonPage(seasonApiCode)));
      SeasonsOfSnoc(FilterSeasons(allSeasons[..i], minSeason), allSeasons[i], seasonPage);
      seasons := seasons + [season];
    }
    assert allSeasons[..|allSeasons|] == allSeasons;
    return Success(seasons);
  }

  /** `scrape_dm_season_data`: the earliest season is looked up, then the web is
      scraped from it on. */
  method ScrapeDmSeasonData(homepage: Homepage, ongoingYearStarts: Option<seq<int>>, seasonPage: int -> seq<GameDay>)
    returns (r: Result<seq<Season>, Error>)
    ensures r == SeasonsData(homepage, seasonPage, EarliestSeason(ongoingYearStarts))
  {
    var minSeason := EarliestSeason(ongoingYearStarts);
    r := ScrapeDataFromTheWeb(homepage, seasonPage, minSeason);
  }

  /** The seasons returned are exactly the homepage seasons from `minSeason` on, in
      homepage order, each with the status inferred from its own page; without a selector
      the homepage's `ValueError` is returned. */
  lemma SeasonsDataMeaning(homepage: Homepage, seasonPage: int -> seq<GameDay>, minSeason: int)
    ensures FindSeasons(homepage).Failure? ==> SeasonsData(homepage, seasonPage, minSeason) == Failure(FindSeasons(homepage).error)
    ensures FindSeasons(homepage).Success? ==>
      var all, out := FindSeasons(homepage).value, SeasonsData(homepage, seasonPage, minSeason).value;
      && |out| == |FilterSeasons(all, minSeason)|
      && (forall i | 0 <= i < |out| ::
           && (out[i].yearStart, out[i].codeSerieAApi) == FilterSeasons(all, minSeason)[i]
           && out[i].yearStart >= minSeason
           && out[i].status == InferStatus(seasonPage(out[i].codeSerieAApi)))
      && (forall p | p in all && p.0 >= minSeason :: exists i | 0 <= i < |out| :: (out[i].yearStart, out[i].codeSerieAApi) == p)
  {
    if FindSeasons(homepage).Success? {
      KeptSeasons(FindSeasons(homepage).value, seasonPage, minSeason);
    }
  }

  /** The same, for the seasons read off the homepage. */
  lemma KeptSeasons(all: seq<(int, int)>, seasonPage: int -> seq<GameDay>, minSeason: int)
    ensures var out := SeasonsOf(FilterSeasons(all, minSeason), seasonPage);
      && |out| == |FilterSeasons(all, minSeason)|
      && (forall i | 0 <= i < |out| ::
           && (out[i].yearStart, out[i].codeSerieAApi) == FilterSeasons(all, minSeason)[i]
           && out[i].yearStart >= minSeason
           && out[i].status == InferStatus(seasonPage(out[i].codeSerieAApi)))
      && (forall p | p in all && p.0 >= minSeason :: exists i | 0 <= i < |out| :: (out[i].yearStart, out[i].codeSerieAApi) == p)
  {
    var kept := FilterSeasons(all, minSeason);
    var out := SeasonsOf(kept, seasonPage);
    FilterSeasonsMembers(all, minSeason);
    forall i | 0 <= i < |out|
      ensures out[i].yearStart >= minSeason
    {
      assert kept[i] in kept;
    }
    forall p | p in all && p.0 >= minSeason
      ensures exists i | 0 <= i < |out| :: (out[i].yearStart, out[i].codeSerieAApi) == p
    {
      var i :| 0 <= i < |kept| && kept[i] == p;
      assert (out[i].yearStart, out[i].codeSerieAApi) == p;
    }
  }
}
