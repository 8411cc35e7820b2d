/** The season rules three season extractors repeat word for word: reading the seasons
    from the Serie A homepage's season selector (`_find_seasons` in `update/dm_season.py`
    and in `data_extraction/.../dm_season.py`, `_scape_seasons` in `dm_match_day.py`),
    falling back to 2000 when no ongoing season is known
    (`establish_earliest_season_to_look_for` and `_get_earliest_season_to_import`), and
    keeping the seasons from a given start year on. */
module SerieASeasons {
  import opened Wrappers
  import opened Exceptions
  import opened PyStr
  import opened FantacalcioWebsite
  import opened Extraction

  /** An `option` of the selector: its text and its `value` attribute. */
  datatype SeasonOption = SeasonOption(text: string, value: string)

  /** What the homepage's `select` lookup finds: nothing, a bare string, or the selector
      with its options. */
  datatype Homepage = NoSelector | TextSelector | Selector(options: seq<SeasonOption>)

  /** `s[:4]`. */
  function FirstFour(s: string): (r: string)
    ensures |r| == if |s| < 4 then |s| else 4
    ensures r == s[..|r|]
  {
    if |s| <= 4 then s else s[..4]
  }

  /** `(int(option.text[:4]), int(option["value"]))`. */
  function ParseOption(o: SeasonOption): (r: Result<Option<(int, int)>, Error>)
    ensures r.Success? <==> ParseInt(FirstFour(o.text)).Some? && ParseInt(o.value).Some?
    ensures r.Success? ==> r.value == Some((ParseInt(FirstFour(o.text)).value, ParseInt(o.value).value))
    ensures r.Failure? ==> r.error.ValueError?
  {
    var year :- IntOf(FirstFour(o.text));
    var code :- IntOf(o.value);
    Success(Some((year, code)))
  }

  function OptionParser(): SeasonOption -> Result<Option<(int, int)>, Error> {
    (o: SeasonOption) => ParseOption(o)
  }

  const NO_SELECTOR_MESSAGE := "Season selector not found in the Serie A homepage."
  const BAD_SELECTOR_MESSAGE := "Season selector has not the expected format."

  /** `_find_seasons`: the `(start year, api code)` pair of each option, in homepage
      order. */
  function FindSeasons(homepage: Homepage): Result<seq<(int, int)>, Error> {
    match homepage
    case NoSelector => Failure(ValueError(NO_SELECTOR_MESSAGE))
    case TextSelector => Failure(ValueError(BAD_SELECTOR_MESSAGE))
    case Selector(options) => Harvest(options, OptionParser())
  }

  /** Without a selector the lookup raises `ValueError`; with one, there is one pair per
      option, in order, made of the integers of the first four characters of its text and
      of its value, or the first unreadable option's `ValueError`. */
  lemma FindSeasonsMeaning(homepage: Homepage)
    ensures homepage.NoSelector? ==> FindSeasons(homepage) == Failure(ValueError(NO_SELECTOR_MESSAGE))
    ensures homepage.TextSelector? ==> FindSeasons(homepage) == Failure(ValueError(BAD_SELECTOR_MESSAGE))
    ensures FindSeasons(homepage).Failure? ==> FindSeasons(homepage).error.ValueError?
    ensures FindSeasons(homepage).Success? ==>
      var options, out := homepage.options, FindSeasons(homepage).value;
      && |out| == |options|
      && forall i | 0 <= i < |options| ::
        && ParseInt(FirstFour(options[i].text)) == Some(out[i].0)
        && ParseInt(options[i].value) == Some(out[i].1)
  {
    if homepage.Selector? {
      OptionsMeaning(homepage.options);
    }
  }

  /** The same, for the options of the selector. */
  lemma OptionsMeaning(options: seq<SeasonOption>)
    ensures Harvest(options, OptionParser()).Failure? ==> Harvest(options, OptionParser()).error.ValueError?
    ensures Harvest(options, OptionParser()).Success? ==>
      var out := Harvest(options, OptionParser()).value;
      && |out| == |options|
      && forall i | 0 <= i < |options| ::
        && ParseInt(FirstFour(options[i].text)) == Some(out[i].0)
        && ParseInt(options[i].value) == Some(out[i].1)
  {
    var f := OptionParser();
    HarvestMeaning(options, f);
    if Harvest(options, f).Success? {
      HarvestOnePerRow(options, f);
      var out := Harvest(options, f).value;
      forall i | 0 <= i < |options|
        ensures ParseInt(FirstFour(options[i].text)) == Some(out[i].0)
        ensures ParseInt(options[i].value) == Some(out[i].1)
      {
        assert ParseOption(options[i]) == Success(Some(out[i]));
      }
    } else {
      var i :| 0 <= i < |options| && f(options[i]) == Failure(Harvest(options, f).error);
      assert ParseOption(options[i]).Failure?;
    }
  }

  /** An option whose text is a four-digit year followed by anything (`2023/24`) gives
      that year. */
  lemma SeasonYearIsFirstFourChars(year: int, rest: string, code: int)
    requires 1000 <= year <= 9999
    ensures ParseOption(SeasonOption(IntToString(year) + rest, IntToString(code))) == Success(Some((year, code)))
  {
    FourDigits(year);
    assert FirstFour(IntToString(year) + rest) == IntToString(year);
    ParseIntOfIntToString(year);
    ParseIntOfIntToString(code);
  }

  /** One entry of a season page's `data`: a match day's `id_category`, its
      `description` (the match-day number as text) and its `category_status`. */
  datatype GameDay = GameDay(idCategory: int, description: string, categoryStatus: string)

  /** The status label of a match day whose games have not started. */
  const TO_BE_PLAYED := "TO BE PLAYED"

  /** Never go earlier than this season. */
  const FALLBACK_EARLIEST_SEASON := 2000

  /** The earliest season to import: the start year in the first row of the ongoing-season
      query, or 2000 when the table is missing (`None`) or no season is ongoing. */
  function EarliestSeason(ongoingYearStarts: Option<seq<int>>): (r: int)
    ensures ongoingYearStarts.Some? && ongoingYearStarts.value != [] ==> r == ongoingYearStarts.value[0]
    ensures ongoingYearStarts.None? || ongoingYearStarts.value == [] ==> r == FALLBACK_EARLIEST_SEASON
  {
    match ongoingYearStarts
    case None => FALLBACK_EARLIEST_SEASON
    case Some(rows) => if rows == [] then FALLBACK_EARLIEST_SEASON else rows[0]
  }

  /** The seasons whose start year is at least `earliest`, in their original order. */
  function FilterSeasons(seasons: seq<(int, int)>, earliest: int): seq<(int, int)>
    decreases |seasons|
  {
    if |seasons| == 0 then []
    else
      var last := seasons[|seasons| - 1];
      FilterSeasons(seasons[..|seasons| - 1], earliest) + (if last.0 >= earliest then [last] else [])
  }

  /** One more season is kept iff it starts at `earliest` or later. */
  lemma FilterSeasonsSnoc(seasons: seq<(int, int)>, i: nat, earliest: int)
    requires i < |seasons|
    ensures FilterSeasons(seasons[..i + 1], earliest)
         == FilterSeasons(seasons[..i], earliest) + (if seasons[i].0 >= earliest then [seasons[i]] else [])
  {
    assert seasons[..i + 1][..i] == seasons[..i];
  }

  /** Exactly the seasons from `earliest` on are kept, and nothing else. */
  lemma {:induction false} FilterSeasonsMembers(seasons: seq<(int, int)>, earliest: int)
    ensures forall p | p in FilterSeasons(seasons, earliest) :: p in seasons && p.0 >= earliest
    ensures forall p | p in seasons && p.0 >= earliest :: p in FilterSeasons(seasons, earliest)
    ensures |FilterSeasons(seasons, earliest)| <= |seasons|
    decreases |seasons|
  {
    if |seasons| > 0 {
      var init := seasons[..|seasons| - 1];
      FilterSeasonsMembers(init, earliest);
      assert seasons == init + [seasons[|seasons| - 1]];
    }
  }

  /** Filtering keeps the original order: the kept seasons of a concatenation are those
      of its first part, then those of its second part. */
  lemma {:induction false} FilterSeasonsAppend(seasons: seq<(int, int)>, more: seq<(int, int)>, earliest: int)
    ensures FilterSeasons(seasons + more, earliest) == FilterSeasons(seasons, earliest) + FilterSeasons(more, earliest)
    decreases |more|
  {
    if |more| == 0 {
      assert seasons + more == seasons;
    } else {
      var init := more[..|more| - 1];
      FilterSeasonsAppend(seasons, init, earliest);
      assert (seasons + more)[..|seasons + more| - 1] == seasons + init;
    }
  }

  /** Filtering twice with the same year is filtering once. */
  lemma {:induction false} FilterSeasonsIdempotent(seasons: seq<(int, int)>, earliest: int)
    ensures FilterSeasons(FilterSeasons(seasons, earliest), earliest) == FilterSeasons(seasons, earliest)
    decreases |seasons|
  {
    if |seasons| > 0 {
      var init, last := seasons[..|seasons| - 1], seasons[|seasons| - 1];
      FilterSeasonsIdempotent(init, earliest);
      var tail := if last.0 >= earliest then [last] else [];
      FilterSeasonsAppend(FilterSeasons(init, earliest), tail, earliest);
      if last.0 >= earliest {
        assert [last][..0] == [];
      }
    }
  }
}
