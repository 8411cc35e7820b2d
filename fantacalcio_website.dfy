/** `fantacalcio_punto_it_website.py`: the season tag, the two page addresses and the
    player id read back from a player's address. The HTTP requests are not modelled. */
module FantacalcioWebsite {
  import opened Wrappers
  import opened Exceptions
  import opened PyStr

  const ROOT := "https://www.fantacalcio.it"

  /** `s[2:]`, which is empty for a string shorter than two. */
  function DropTwo(s: string): string {
    if |s| >= 2 then s[2..] else []
  }

  /** `make_season_tag`. */
  function MakeSeasonTag(seasonYearStart: int): string {
    IntToString(seasonYearStart) + "-" + DropTwo(IntToString(seasonYearStart + 1))
  }

  lemma FourDigits(n: nat)
    requires 1000 <= n <= 9999
    ensures NatDigits(n) == [DigitChar(n / 1000), DigitChar(n / 100 % 10), DigitChar(n / 10 % 10), DigitChar(n % 10)]
  {
    assert NatDigits(n / 1000) == [DigitChar(n / 1000)];
    assert (n / 10) / 10 == n / 100 && (n / 100) / 10 == n / 1000;
    assert NatDigits(n / 100) == [DigitChar(n / 1000), DigitChar(n / 100 % 10)];
    assert NatDigits(n / 10) == [DigitChar(n / 1000), DigitChar(n / 100 % 10), DigitChar(n / 10 % 10)];
  }

  /** `re.match(r"\d{4}-\d{2}", s)`: the string begins with four digits, a dash and two
      digits; whatever follows is ignored. */
  predicate SeasonPrefix(s: string) {
    && |s| >= 7
    && IsDigit(s[0]) && IsDigit(s[1]) && IsDigit(s[2]) && IsDigit(s[3])
    && s[4] == '-' && IsDigit(s[5]) && IsDigit(s[6])
  }

  /** For a four-digit year the tag is the year, a dash and the last two digits of the
      next year, and it is what the player-address rule recognises as a season. */
  lemma SeasonTagOfFourDigitYear(y: int)
    requires 1000 <= y <= 9998
    ensures MakeSeasonTag(y) == NatDigits(y) + "-" + [DigitChar((y + 1) / 10 % 10), DigitChar((y + 1) % 10)]
    ensures |MakeSeasonTag(y)| == 7 && SeasonPrefix(MakeSeasonTag(y))
  {
    FourDigits(y);
    FourDigits(y + 1);
    assert DropTwo(NatDigits(y + 1)) == [DigitChar((y + 1) / 10 % 10), DigitChar((y + 1) % 10)];
  }

  lemma SeasonTagOf2021()
    ensures MakeSeasonTag(2021) == "2021-22"
  {
    SeasonTagOfFourDigitYear(2021);
  }

  /** What `get_grades_page` requests. */
  function GradesPageUrl(seasonYearStart: int, matchDayNumber: int): string {
    ROOT + "/voti-fantacalcio-serie-a/" + MakeSeasonTag(seasonYearStart) + "/" + IntToString(matchDayNumber)
  }

  /** What `get_players_list_page` requests. */
  function PlayersListPageUrl(seasonYearStart: int): string {
    ROOT + "/quotazioni-fantacalcio/" + MakeSeasonTag(seasonYearStart)
  }

  lemma NoSlashInNumber(n: int)
    ensures '/' !in IntToString(n)
  {
    var m: nat := if n < 0 then -n else n;
    assert forall i | 0 <= i < |NatDigits(m)| :: IsDigit(NatDigits(m)[i]);
    if n < 0 {
      assert IntToString(n) == "-" + NatDigits(m);
    }
  }

  lemma NoSlashInTag(y: int)
    ensures '/' !in MakeSeasonTag(y)
  {
    NoSlashInNumber(y);
    NoSlashInNumber(y + 1);
  }

  lemma {:induction false} JoinAppend(a: seq<string>, b: seq<string>)
    requires a != [] && b != []
    ensures Join("/", a + b) == Join("/", a) + "/" + Join("/", b)
    decreases |a|
  {
    if |a| == 1 {
      assert [a[0]] + b == a + b;
      JoinCons("/", a[0], b);
    } else {
      JoinAppend(a[1..], b);
      assert [a[0]] + (a[1..] + b) == a + b;
      JoinCons("/", a[0], a[1..] + b);
      JoinCons("/", a[0], a[1..]);
    }
  }

  const ROOT_SEGMENTS := ["https:", "", "www.fantacalcio.it"]

  lemma RootSegments()
    ensures Join("/", ROOT_SEGMENTS) == ROOT
  {
    assert Join("/", ROOT_SEGMENTS[2..]) == "www.fantacalcio.it";
    assert Join("/", ROOT_SEGMENTS[1..]) == "/www.fantacalcio.it";
  }

  /** The address below the root made of the segments of `path`. */
  function PageAddress(path: seq<string>): string {
    ROOT + "/" + Join("/", path)
  }

  lemma PageUnderRoot(path: seq<string>)
    requires path != [] && forall p | p in path :: '/' !in p
    ensures Split(PageAddress(path), "/", -1) == ROOT_SEGMENTS + path
  {
    RootSegments();
    JoinAppend(ROOT_SEGMENTS, path);
    SplitJoin(ROOT_SEGMENTS + path, "/");
  }

  lemma ThreePageSegments(word: string, tag: string, num: string)
    requires '/' !in word && '/' !in tag && '/' !in num
    ensures Split(PageAddress([word, tag, num]), "/", -1) == ROOT_SEGMENTS + [word, tag, num]
  {
    PageUnderRoot([word, tag, num]);
  }

  lemma TwoPageSegments(word: string, tag: string)
    requires '/' !in word && '/' !in tag
    ensures Split(PageAddress([word, tag]), "/", -1) == ROOT_SEGMENTS + [word, tag]
  {
    PageUnderRoot([word, tag]);
  }

  lemma ThreeSegmentText(root: string, word: string, tag: string, num: string)
    ensures root + ("/" + word + "/") + tag + "/" + num == root + "/" + Join("/", [word, tag, num])
  {
    assert [word] + [tag, num] == [word, tag, num];
    assert [tag] + [num] == [tag, num];
    JoinCons("/", word, [tag, num]);
    JoinCons("/", tag, [num]);
  }

  lemma GradesText(tag: string, num: string)
    ensures ROOT + "/voti-fantacalcio-serie-a/" + tag + "/" + num
         == PageAddress(["voti-fantacalcio-serie-a", tag, num])
  {
    var word := "voti-fantacalcio-serie-a";
    ThreeSegmentText(ROOT, word, tag, num);
    assert "/voti-fantacalcio-serie-a/" == "/" + word + "/";
  }

  lemma GradesPageUrlIsPage(y: int, n: int)
    ensures GradesPageUrl(y, n) == PageAddress(["voti-fantacalcio-serie-a", MakeSeasonTag(y), IntToString(n)])
  {
    GradesText(MakeSeasonTag(y), IntToString(n));
  }

  /** The grades address has the season tag and the match-day number as its last two
      `/`-segments. */
  lemma GradesPageUrlSegments(y: int, n: int)
    ensures Split(GradesPageUrl(y, n), "/", -1)
         == ROOT_SEGMENTS + ["voti-fantacalcio-serie-a", MakeSeasonTag(y), IntToString(n)]
  {
    var word, tag, num := "voti-fantacalcio-serie-a", MakeSeasonTag(y), IntToString(n);
    assert '/' !in word;
    NoSlashInTag(y);
    NoSlashInNumber(n);
    GradesPageUrlIsPage(y, n);
    ThreePageSegments(word, tag, num);
  }

  lemma TwoSegmentText(root: string, word: string, tag: string)
    ensures root + ("/" + word + "/") + tag == root + "/" + Join("/", [word, tag])
  {
    assert [word] + [tag] == [word, tag];
    JoinCons("/", word, [tag]);
  }

  lemma PlayersText(tag: string)
    ensures ROOT + "/quotazioni-fantacalcio/" + tag == PageAddress(["quotazioni-fantacalcio", tag])
  {
    var word := "quotazioni-fantacalcio";
    TwoSegmentText(ROOT, word, tag);
    assert "/quotazioni-fantacalcio/" == "/" + word + "/";
  }

  lemma PlayersListPageUrlIsPage(y: int)
    ensures PlayersListPageUrl(y) == PageAddress(["quotazioni-fantacalcio", MakeSeasonTag(y)])
  {
    PlayersText(MakeSeasonTag(y));
  }

  /** The players address ends with the season tag. */
  lemma PlayersListPageUrlSegments(y: int)
    ensures Split(PlayersListPageUrl(y), "/", -1) == ROOT_SEGMENTS + ["quotazioni-fantacalcio", MakeSeasonTag(y)]
  {
    var word, tag := "quotazioni-fantacalcio", MakeSeasonTag(y);
    assert '/' !in word;
    NoSlashInTag(y);
    PlayersListPageUrlIsPage(y);
    TwoPageSegments(word, tag);
  }

  /** `int(s)`, raising `ValueError` on anything but a decimal literal. */
  function IntOf(s: string): (r: Result<int, Error>)
    ensures r.Success? <==> ParseInt(s).Some?
    ensures r.Success? ==> r.value == ParseInt(s).value
    ensures r.Failure? ==> r.error.ValueError?
  {
    match ParseInt(s)
    case Some(v) => Success(v)
    case None => Failure(ValueError(INT_ERROR_PREFIX + s + "'"))
  }

  const INT_ERROR_PREFIX := "invalid literal for int() with base 10: '"

  /** `strip_player_id_from_url`: the last `/`-segment, or the one before it when the last
      begins like a season. */
  function StripPlayerIdFromUrl(playerUrl: string): Result<int, Error> {
    var parts := Split(playerUrl, "/", -1);
    if SeasonPrefix(parts[|parts| - 1]) then
      if |parts| < 2 then Failure(IndexError) else IntOf(parts[|parts| - 2])
    else IntOf(parts[|parts| - 1])
  }

  /** The rule reads back the id from an address whose last segment is a season tag. */
  lemma StripIdBeforeSeason(prefix: seq<string>, id: int, season: string)
    requires forall p | p in prefix :: '/' !in p
    requires '/' !in season && SeasonPrefix(season)
    ensures StripPlayerIdFromUrl(Join("/", prefix + [IntToString(id), season])) == Success(id)
  {
    var parts := prefix + [IntToString(id), season];
    NoSlashInNumber(id);
    SplitJoin(parts, "/");
    ParseIntOfIntToString(id);
  }

  /** No integer's decimal text looks like a season. */
  lemma NumberIsNoSeason(id: int)
    ensures !SeasonPrefix(IntToString(id))
  {
    var m: nat := if id < 0 then -id else id;
    var d := NatDigits(m);
    assert forall i | 0 <= i < |d| :: IsDigit(d[i]);
    if id < 0 {
      assert IntToString(id)[0] == '-';
    } else if |d| >= 7 {
      assert IsDigit(d[4]);
    }
  }

  /** The rule reads back the id from an address that ends with it. */
  lemma StripIdAtEnd(prefix: seq<string>, id: int)
    requires forall p | p in prefix :: '/' !in p
    ensures StripPlayerIdFromUrl(Join("/", prefix + [IntToString(id)])) == Success(id)
  {
    var parts := prefix + [IntToString(id)];
    NoSlashInNumber(id);
    SplitJoin(parts, "/");
    ParseIntOfIntToString(id);
    NumberIsNoSeason(id);
  }

  /** Only the start of the last segment is checked: a segment that merely begins
      like a season sends the rule to the segment before it. */
  lemma SeasonCheckIsAPrefixTest(prefix: seq<string>, id: int, rest: string)
    requires forall p | p in prefix :: '/' !in p
    requires '/' !in rest
    ensures StripPlayerIdFromUrl(Join("/", prefix + [IntToString(id), "2023-24" + rest])) == Success(id)
  {
    StripIdBeforeSeason(prefix, id, "2023-24" + rest);
  }
}
