/** Python's `str` built-ins that the repository relies on, with the
    properties the rest of the model needs: `in`, `find`, `split(sep)`,
    `split()`, `sep.join`, `replace`, `count`, `upper`/`lower`,
    `strip`/`rstrip`, `int(..)` and `str(..)` of an integer. */
module PyStr {
  import opened Wrappers

  // ---------------------------------------------------------------- characters

  /** `c.isspace()`: the characters `str.split()` and `str.strip()` treat as whitespace. */
  predicate IsSpace(c: char) {
    var n := c as int;
    || n == 32 || 9 <= n <= 13 || 28 <= n <= 31 || n == 0x85 || n == 0xA0
    || n == 0x1680 || 0x2000 <= n <= 0x200A || n == 0x2028 || n == 0x2029
    || n == 0x202F || n == 0x205F || n == 0x3000
  }

  predicate IsDigit(c: char) { '0' <= c <= '9' }

  function DigitValue(c: char): (d: nat)
    requires IsDigit(c)
    ensures d < 10
  {
    c as int - '0' as int
  }

  function DigitChar(d: nat): (c: char)
    requires d < 10
    ensures IsDigit(c) && DigitValue(c) == d
  {
    ('0' as int + d) as char
  }

  function UpperChar(c: char): char {
    if 'a' <= c <= 'z' then (c as int - 32) as char else c
  }

  function LowerChar(c: char): char {
    if 'A' <= c <= 'Z' then (c as int + 32) as char else c
  }

  /** `s.upper()`, restricted to ASCII letters. */
  function Upper(s: string): (r: string)
    ensures |r| == |s| && forall i :: 0 <= i < |s| ==> r[i] == UpperChar(s[i])
  {
    if s == [] then [] else [UpperChar(s[0])] + Upper(s[1..])
  }

  /** `s.lower()`, restricted to ASCII letters. */
  function Lower(s: string): (r: string)
    ensures |r| == |s| && forall i :: 0 <= i < |s| ==> r[i] == LowerChar(s[i])
  {
    if s == [] then [] else [LowerChar(s[0])] + Lower(s[1..])
  }

  // ---------------------------------------------------------------- substrings

  predicate OccursAt(s: string, pat: string, i: int) {
    0 <= i && i + |pat| <= |s| && s[i..i + |pat|] == pat
  }

  /** `pat in s`. */
  predicate Contains(s: string, pat: string) {
    exists i | 0 <= i <= |s| - |pat| :: OccursAt(s, pat, i)
  }

  lemma OccursAtConcat(a: string, pat: string, b: string)
    ensures OccursAt(a + pat + b, pat, |a|) && Contains(a + pat + b, pat)
  {
    assert (a + pat + b)[|a|..|a| + |pat|] == pat;
    assert OccursAt(a + pat + b, pat, |a|);
  }

  /** An occurrence stays one when text is appended. */
  lemma ContainsExtend(s: string, pat: string, t: string)
    requires Contains(s, pat)
    ensures Contains(s + t, pat)
  {
    var i :| 0 <= i <= |s| - |pat| && OccursAt(s, pat, i);
    assert (s + t)[i..i + |pat|] == s[i..i + |pat|];
    assert OccursAt(s + t, pat, i);
  }

  lemma ContainsChar(s: string, c: char)
    ensures Contains(s, [c]) <==> c in s
  {
    forall i | 0 <= i < |s|
      ensures OccursAt(s, [c], i) <==> s[i] == c
    {
      assert s[i..i + 1] == [s[i]];
    }
    if c in s {
      var i :| 0 <= i < |s| && s[i] == c;
      assert OccursAt(s, [c], i);
    }
  }

  /** First index at or after `i` where a non-empty `pat` occurs in `s`. */
  function FindFrom(s: string, pat: string, i: nat): (r: Option<nat>)
    requires pat != []
    ensures r.Some? ==> i <= r.value && OccursAt(s, pat, r.value)
    ensures r.Some? ==> forall j :: i <= j < r.value ==> !OccursAt(s, pat, j)
    ensures r.None? ==> forall j :: i <= j ==> !OccursAt(s, pat, j)
    decreases |s| - i
  {
    if i + |pat| > |s| then None
    else if OccursAt(s, pat, i) then Some(i)
    else FindFrom(s, pat, i + 1)
  }

  /** `s.find(pat)` for a non-empty pattern: the first index where `pat` occurs. */
  function Find(s: string, pat: string): (r: Option<nat>)
    requires pat != []
    ensures r.Some? ==> OccursAt(s, pat, r.value)
    ensures r.Some? ==> forall j :: 0 <= j < r.value ==> !OccursAt(s, pat, j)
    ensures r.None? <==> !Contains(s, pat)
  {
    FindFrom(s, pat, 0)
  }

  /** The first occurrence of a character is found where it is. */
  lemma FindChar(s: string, c: char, i: nat)
    requires i < |s| && s[i] == c && forall k :: 0 <= k < i ==> s[k] != c
    ensures Find(s, [c]) == Some(i)
  {
    assert s[i..i + 1] == [c];
    assert OccursAt(s, [c], i);
    forall k | 0 <= k < i ensures !OccursAt(s, [c], k) {
      assert s[k..k + 1][0] == s[k];
    }
  }

  // ---------------------------------------------------------------- join / split

  /** `sep.join(parts)`. */
  function Join(sep: string, parts: seq<string>): string
    decreases |parts|
  {
    if |parts| == 0 then []
    else if |parts| == 1 then parts[0]
    else parts[0] + sep + Join(sep, parts[1..])
  }

  /** `s.split(sep, maxsplit)` for a non-empty separator; a negative `maxsplit` means no limit. */
  function Split(s: string, sep: string, maxsplit: int): (r: seq<string>)
    requires sep != []
    ensures |r| >= 1
    ensures maxsplit >= 0 ==> |r| <= maxsplit + 1
    decreases |s|
  {
    if maxsplit == 0 then [s]
    else match Find(s, sep)
      case None => [s]
      case Some(i) =>
        [s[..i]] + Split(s[i + |sep|..], sep, if maxsplit < 0 then maxsplit else maxsplit - 1)
  }

  /** One step of a split: the piece before the first separator, then the rest. */
  lemma SplitStep(s: string, sep: string, maxsplit: int, i: nat)
    requires sep != [] && maxsplit != 0 && Find(s, sep) == Some(i)
    ensures i + |sep| <= |s| && s[i..i + |sep|] == sep
    ensures Split(s, sep, maxsplit)
         == [s[..i]] + Split(s[i + |sep|..], sep, if maxsplit < 0 then maxsplit else maxsplit - 1)
  {
    var rest := Split(s[i + |sep|..], sep, if maxsplit < 0 then maxsplit else maxsplit - 1);
    assert Split(s, sep, maxsplit) == [s[..i]] + rest;
  }

  lemma {:induction false} JoinSplit(s: string, sep: string, maxsplit: int)
    requires sep != []
    ensures Join(sep, Split(s, sep, maxsplit)) == s
    decreases |s|
  {
    if maxsplit != 0 && Find(s, sep).Some? {
      var i := Find(s, sep).value;
      var m := if maxsplit < 0 then maxsplit else maxsplit - 1;
      SplitStep(s, sep, maxsplit, i);
      var rest := Split(s[i + |sep|..], sep, m);
      JoinSplit(s[i + |sep|..], sep, m);
      JoinCons(sep, s[..i], rest);
      AroundSeparator(s, sep, i);
    }
  }

  /** A string is the part before an occurrence, the occurrence, and the part after. */
  lemma AroundSeparator(s: string, sep: string, i: nat)
    requires i + |sep| <= |s| && s[i..i + |sep|] == sep
    ensures s[..i] + sep + s[i + |sep|..] == s
  {
    var a, b := s[..i], s[i + |sep|..];
    assert |a + sep + b| == |s|;
    forall k | 0 <= k < |s| ensures (a + sep + b)[k] == s[k] {
      if k < i {
      } else if k < i + |sep| {
        assert sep[k - i] == s[i..i + |sep|][k - i];
      }
    }
  }

  lemma PrefixBeforeFirst(s: string, sep: string, i: nat)
    requires sep != [] && i <= |s|
    requires forall j :: 0 <= j < i ==> !OccursAt(s, sep, j)
    ensures !Contains(s[..i], sep)
  {
    forall j | 0 <= j <= i - |sep|
      ensures !OccursAt(s[..i], sep, j)
    {
      assert !OccursAt(s, sep, j);
      assert s[..i][j..j + |sep|] == s[j..j + |sep|];
    }
  }

  /** With no limit, no piece of the split contains the separator. */
  lemma {:induction false} SplitPiecesLackSeparator(s: string, sep: string, maxsplit: int)
    requires sep != [] && maxsplit < 0
    ensures forall p | p in Split(s, sep, maxsplit) :: !Contains(p, sep)
    decreases |s|
  {
    match Find(s, sep)
    case None =>
    case Some(i) =>
      PrefixBeforeFirst(s, sep, i);
      SplitPiecesLackSeparator(s[i + |sep|..], sep, maxsplit);
  }

  /** A split at a one-character separator whose first occurrence is known. */
  lemma SplitAtChar(a: string, c: char, rest: string, maxsplit: int)
    requires c !in a && maxsplit != 0
    ensures Split(a + [c] + rest, [c], maxsplit)
         == [a] + Split(rest, [c], if maxsplit < 0 then maxsplit else maxsplit - 1)
  {
    var s := a + [c] + rest;
    FindChar(s, c, |a|);
    SplitStep(s, [c], maxsplit, |a|);
    assert s[..|a|] == a;
    assert s[|a| + 1..] == rest;
  }

  lemma JoinCons(sep: string, p: string, rest: seq<string>)
    requires rest != []
    ensures Join(sep, [p] + rest) == p + sep + Join(sep, rest)
  {
    assert ([p] + rest)[1..] == rest;
  }

  /** A string without the separator's first character holds no occurrence of it. */
  lemma LacksSeparator(p: string, sep: string)
    requires sep != [] && sep[0] !in p
    ensures !Contains(p, sep)
  {
    forall k | 0 <= k <= |p| - |sep| ensures !OccursAt(p, sep, k) {
      assert p[k..k + |sep|][0] == p[k];
    }
  }

  /** Splitting undoes a join of pieces in which the separator's first character never occurs. */
  lemma {:induction false} SplitJoin(parts: seq<string>, sep: string)
    requires sep != [] && parts != []
    requires forall p | p in parts :: sep[0] !in p
    ensures Split(Join(sep, parts), sep, -1) == parts
    decreases |parts|
  {
    var p := parts[0];
    if |parts| == 1 {
      LacksSeparator(p, sep);
    } else {
      var rest := parts[1..];
      assert [p] + rest == parts;
      JoinCons(sep, p, rest);
      var j := Join(sep, rest);
      var s := p + sep + j;
      OccursAtConcat(p, sep, j);
      assert Find(s, sep) == Some(|p|) by {
        forall k | 0 <= k < |p| ensures !OccursAt(s, sep, k) {
          assert s[k..k + |sep|][0] == p[k];
        }
      }
      assert s[|p| + |sep|..] == j;
      assert s[..|p|] == p;
      SplitJoin(rest, sep);
    }
  }

  /** Words joined by a separator without whitespace form one word. */
  lemma {:induction false} JoinIsWord(sep: string, parts: seq<string>)
    requires parts != [] && forall p | p in parts :: IsWord(p)
    requires forall i :: 0 <= i < |sep| ==> !IsSpace(sep[i])
    ensures IsWord(Join(sep, parts))
    decreases |parts|
  {
    assert parts[0] in parts;
    if |parts| > 1 {
      var p, rest := parts[0], parts[1..];
      assert [p] + rest == parts;
      JoinCons(sep, p, rest);
      JoinIsWord(sep, rest);
      var j := Join(sep, rest);
      var s := p + sep + j;
      forall i | 0 <= i < |s| ensures !IsSpace(s[i]) {
        if i < |p| {
          assert s[i] == p[i];
        } else if i < |p| + |sep| {
          assert s[i] == sep[i - |p|];
        } else {
          assert s[i] == j[i - |p| - |sep|];
        }
      }
    }
  }

  // ---------------------------------------------------------------- replace

  /** `s.replace(old, new)`: leftmost, non-overlapping occurrences, left to right;
      an empty `old` inserts `new` before every character and at the end. */
  function Replace(s: string, pat: string, rep: string): string
    decreases |s|
  {
    if pat == [] then
      (if s == [] then rep else rep + [s[0]] + Replace(s[1..], pat, rep))
    else match Find(s, pat)
      case None => s
      case Some(i) => s[..i] + rep + Replace(s[i + |pat|..], pat, rep)
  }

  /** For a non-empty `old`, `s.replace(old, new)` is `new.join(s.split(old))`. */
  lemma {:induction false} ReplaceIsJoinOfSplit(s: string, pat: string, rep: string)
    requires pat != []
    ensures Replace(s, pat, rep) == Join(rep, Split(s, pat, -1))
    decreases |s|
  {
    match Find(s, pat)
    case None =>
    case Some(i) =>
      var rest := Split(s[i + |pat|..], pat, -1);
      ReplaceIsJoinOfSplit(s[i + |pat|..], pat, rep);
      assert Split(s, pat, -1) == [s[..i]] + rest;
      assert ([s[..i]] + rest)[1..] == rest;
  }

  lemma ReplaceAbsent(s: string, pat: string, rep: string)
    requires pat != [] && !Contains(s, pat)
    ensures Replace(s, pat, rep) == s
  {
  }

  /** An occurrence that nothing before it can start, and after which the pattern does not
      occur again, is the only one replaced. */
  lemma ReplaceFirst(a: string, pat: string, rep: string, b: string)
    requires pat != [] && pat[0] !in a && !Contains(b, pat)
    ensures Replace(a + pat + b, pat, rep) == a + rep + b
  {
    var s := a + pat + b;
    OccursAtConcat(a, pat, b);
    forall k | 0 <= k < |a| ensures !OccursAt(s, pat, k) {
      assert s[k..k + |pat|][0] == a[k];
    }
    assert Find(s, pat) == Some(|a|);
    assert s[..|a|] == a;
    assert s[|a| + |pat|..] == b;
    ReplaceAbsent(b, pat, rep);
  }

  /** A pattern that cannot start in `a` and does not occur in `b` does not occur in `a + b`. */
  lemma NotContainsConcat(a: string, b: string, pat: string)
    requires pat != [] && pat[0] !in a && !Contains(b, pat)
    ensures !Contains(a + b, pat)
  {
    var s := a + b;
    forall k | 0 <= k <= |s| - |pat| ensures !OccursAt(s, pat, k) {
      if k < |a| {
        assert s[k..k + |pat|][0] == a[k];
      } else {
        assert s[k..k + |pat|] == b[k - |a|..k - |a| + |pat|];
        assert !OccursAt(b, pat, k - |a|);
      }
    }
  }

  // ---------------------------------------------------------------- count

  /** `s.count(c)` for a one-character argument. */
  function CountChar(s: string, c: char): nat
    decreases |s|
  {
    if s == [] then 0 else (if s[0] == c then 1 else 0) + CountChar(s[1..], c)
  }

  lemma {:induction false} CountCharConcat(a: string, b: string, c: char)
    ensures CountChar(a + b, c) == CountChar(a, c) + CountChar(b, c)
    decreases |a|
  {
    if a != [] {
      assert (a + b)[0] == a[0];
      assert (a + b)[1..] == a[1..] + b;
      CountCharConcat(a[1..], b, c);
    } else {
      assert a + b == b;
    }
  }

  lemma {:induction false} CountCharAbsent(s: string, c: char)
    requires c !in s
    ensures CountChar(s, c) == 0
    decreases |s|
  {
    if s != [] {
      CountCharAbsent(s[1..], c);
    }
  }

  // ---------------------------------------------------------------- split() and strip()

  /** Length of the leading run of non-whitespace characters. */
  function WordLength(s: string): (n: nat)
    ensures n <= |s|
    ensures forall i :: 0 <= i < n ==> !IsSpace(s[i])
    ensures n < |s| ==> IsSpace(s[n])
    decreases |s|
  {
    if s == [] || IsSpace(s[0]) then 0 else 1 + WordLength(s[1..])
  }

  /** `s.split()`: the maximal runs of non-whitespace characters, in order. */
  function Tokens(s: string): seq<string>
    decreases |s|
  {
    if s == [] then []
    else if IsSpace(s[0]) then Tokens(s[1..])
    else
      var n := WordLength(s);
      [s[..n]] + Tokens(s[n..])
  }

  /** A string `split()` returns as one token: non-empty, no whitespace. */
  predicate IsWord(w: string) {
    w != [] && forall i :: 0 <= i < |w| ==> !IsSpace(w[i])
  }

  predicate AllSpace(s: string) {
    forall i :: 0 <= i < |s| ==> IsSpace(s[i])
  }

  lemma {:induction false} TokensAreWords(s: string)
    ensures forall w | w in Tokens(s) :: IsWord(w)
    decreases |s|
  {
    if s != [] {
      if IsSpace(s[0]) {
        TokensAreWords(s[1..]);
      } else {
        TokensAreWords(s[WordLength(s)..]);
      }
    }
  }

  lemma {:induction false} TokensEmpty(s: string)
    ensures Tokens(s) == [] <==> AllSpace(s)
    decreases |s|
  {
    if s != [] {
      if IsSpace(s[0]) {
        TokensEmpty(s[1..]);
        assert AllSpace(s) <==> AllSpace(s[1..]) by {
          if AllSpace(s[1..]) {
            forall i | 0 <= i < |s| ensures IsSpace(s[i]) {
              if i > 0 { assert s[i] == s[1..][i - 1]; }
            }
          }
        }
      } else {
        assert !AllSpace(s);
      }
    }
  }

  lemma {:induction false} WordLengthOfWordThenSpace(w: string, rest: string)
    requires IsWord(w) || w == []
    requires rest != [] && IsSpace(rest[0])
    ensures WordLength(w + rest) == |w|
    decreases |w|
  {
    if w != [] {
      assert (w + rest)[1..] == w[1..] + rest;
      WordLengthOfWordThenSpace(w[1..], rest);
    } else {
      assert w + rest == rest;
    }
  }

  lemma {:induction false} WordLengthOfWord(w: string)
    requires IsWord(w) || w == []
    ensures WordLength(w) == |w|
    decreases |w|
  {
    if w != [] {
      WordLengthOfWord(w[1..]);
    }
  }

  lemma TokensOfWord(w: string)
    requires IsWord(w)
    ensures Tokens(w) == [w]
  {
    WordLengthOfWord(w);
    assert w[..|w|] == w;
    assert w[|w|..] == [];
  }

  lemma TokensOfSpaceThen(c: char, rest: string)
    requires IsSpace(c)
    ensures Tokens([c] + rest) == Tokens(rest)
  {
    assert ([c] + rest)[1..] == rest;
  }

  lemma TokensOfWordThen(w: string, c: char, rest: string)
    requires IsWord(w) && IsSpace(c)
    ensures Tokens(w + [c] + rest) == [w] + Tokens(rest)
  {
    var s := w + [c] + rest;
    assert s == w + ([c] + rest);
    WordLengthOfWordThenSpace(w, [c] + rest);
    assert s[..|w|] == w;
    assert s[|w|..] == [c] + rest;
    TokensOfSpaceThen(c, rest);
  }

  /** `split()` undoes a single-space join of words. */
  lemma {:induction false} TokensOfJoin(words: seq<string>)
    requires forall w | w in words :: IsWord(w)
    ensures Tokens(Join(" ", words)) == words
    decreases |words|
  {
    if |words| == 1 {
      TokensOfWord(words[0]);
    } else if |words| > 1 {
      var rest := words[1..];
      assert [words[0]] + rest == words;
      JoinCons(" ", words[0], rest);
      TokensOfJoin(rest);
      TokensOfWordThen(words[0], ' ', Join(" ", rest));
    }
  }

  lemma {:induction false} TokensConcatSpace(a: string, b: string)
    requires a != [] && IsSpace(a[|a| - 1])
    ensures Tokens(a + b) == Tokens(a) + Tokens(b)
    decreases |a|
  {
    if IsSpace(a[0]) {
      if |a| == 1 {
        TokensOfSpaceThen(a[0], b);
        assert a + b == [a[0]] + b;
        assert Tokens(a) == [];
      } else {
        assert (a + b)[1..] == a[1..] + b;
        TokensConcatSpace(a[1..], b);
      }
    } else {
      var n := WordLength(a);
      assert n < |a|;
      WordLengthOfWordThenSpace(a[..n], a[n..] + b);
      assert a + b == a[..n] + (a[n..] + b);
      assert (a + b)[..n] == a[..n];
      assert (a + b)[n..] == a[n..] + b;
      TokensConcatSpace(a[n..], b);
    }
  }

  /** `s.lstrip()`. */
  function LStrip(s: string): (r: string)
    ensures r == [] || !IsSpace(r[0])
    ensures |r| <= |s| && r == s[|s| - |r|..]
    decreases |s|
  {
    if s != [] && IsSpace(s[0]) then LStrip(s[1..]) else s
  }

  /** `s.rstrip()`. */
  function RStrip(s: string): (r: string)
    ensures r == [] || !IsSpace(r[|r| - 1])
    ensures |r| <= |s| && r == s[..|r|]
    decreases |s|
  {
    if s != [] && IsSpace(s[|s| - 1]) then RStrip(s[..|s| - 1]) else s
  }

  /** `s.strip()`. */
  function Strip(s: string): string {
    RStrip(LStrip(s))
  }

  /** `s.rstrip(c)` for a one-character argument. */
  function RStripChar(s: string, c: char): (r: string)
    ensures r == [] || r[|r| - 1] != c
    ensures |r| <= |s| && r == s[..|r|]
    decreases |s|
  {
    if s != [] && s[|s| - 1] == c then RStripChar(s[..|s| - 1], c) else s
  }

  /** `s.strip(chars)`: drops characters of `chars` from both ends. */
  function StripChars(s: string, chars: set<char>): (r: string)
    ensures r == [] || (r[0] !in chars && r[|r| - 1] !in chars)
    decreases |s|
  {
    if s == [] then s
    else if s[0] in chars then StripChars(s[1..], chars)
    else if s[|s| - 1] in chars then StripChars(s[..|s| - 1], chars)
    else s
  }

  lemma RStripCharAbsent(s: string, c: char)
    requires s == [] || s[|s| - 1] != c
    ensures RStripChar(s, c) == s
  {
  }

  // ---------------------------------------------------------------- integers

  /** Decimal digits of a natural number, most significant first. */
  function NatDigits(n: nat): (r: string)
    ensures r != [] && forall i :: 0 <= i < |r| ==> IsDigit(r[i])
    decreases n
  {
    if n < 10 then [DigitChar(n)] else NatDigits(n / 10) + [DigitChar(n % 10)]
  }

  /** `str(n)` for an integer. */
  function IntToString(n: int): string {
    if n < 0 then "-" + NatDigits(-n) else NatDigits(n)
  }

  /** Value of a string of digits and underscores, underscores ignored. */
  function DigitsValue(s: string): nat
    requires forall i :: 0 <= i < |s| ==> IsDigit(s[i]) || s[i] == '_'
    decreases |s|
  {
    if s == [] then 0
    else if s[|s| - 1] == '_' then DigitsValue(s[..|s| - 1])
    else DigitsValue(s[..|s| - 1]) * 10 + DigitValue(s[|s| - 1])
  }

  /** Digits, with single underscores allowed only between two digits. */
  predicate IsDigitGroups(s: string) {
    && s != []
    && (forall i :: 0 <= i < |s| ==> IsDigit(s[i]) || s[i] == '_')
    && IsDigit(s[0]) && IsDigit(s[|s| - 1])
    && (forall i :: 0 < i < |s| - 1 && s[i] == '_' ==> IsDigit(s[i - 1]) && IsDigit(s[i + 1]))
  }

  /** `int(s)` for a decimal string: surrounding whitespace, an optional sign, ASCII digits. */
  function ParseInt(s: string): Option<int> {
    ParseStripped(Strip(s))
  }

  /** `int(t)` once the whitespace around `t` is gone. */
  function ParseStripped(t: string): Option<int> {
    if t != [] && (t[0] == '-' || t[0] == '+') then
      if IsDigitGroups(t[1..]) then
        var v: int := DigitsValue(t[1..]);
        Some(if t[0] == '-' then -v else v)
      else None
    else if IsDigitGroups(t) then Some(DigitsValue(t))
    else None
  }

  lemma {:induction false} DigitsValueOfNatDigits(n: nat)
    ensures DigitsValue(NatDigits(n)) == n
    decreases n
  {
    if n >= 10 {
      var d := NatDigits(n / 10) + [DigitChar(n % 10)];
      assert d[..|d| - 1] == NatDigits(n / 10);
      DigitsValueOfNatDigits(n / 10);
    }
  }

  lemma StripOfNonSpaceEnds(s: string)
    requires s != [] && !IsSpace(s[0]) && !IsSpace(s[|s| - 1])
    ensures Strip(s) == s
  {
  }

  /** `int(str(n)) == n`. */
  lemma ParseIntOfIntToString(n: int)
    ensures ParseInt(IntToString(n)) == Some(n)
  {
    if n < 0 {
      ParseIntOfNegative(n);
    } else {
      ParseIntOfNatDigits(n);
    }
  }

  lemma ParseIntOfNatDigits(m: nat)
    ensures ParseInt(NatDigits(m)) == Some(m)
  {
    var d := NatDigits(m);
    NatDigitsShape(m);
    StripOfNonSpaceEnds(d);
    assert ParseStripped(d) == Some(DigitsValue(d));
    DigitsValueOfNatDigits(m);
  }

  lemma ParseIntOfNegative(n: int)
    requires n < 0
    ensures ParseInt(IntToString(n)) == Some(n)
  {
    var m: nat := -n;
    var d := NatDigits(m);
    var s := IntToString(n);
    assert s == "-" + d;
    NatDigitsShape(m);
    assert s[|s| - 1] == d[|d| - 1];
    StripOfNonSpaceEnds(s);
    assert s[1..] == d;
    DigitsValueOfNatDigits(m);
    ParseNegativeDigits(s);
  }

  /** A minus sign followed by digit groups reads as the negated value of the digits. */
  lemma ParseNegativeDigits(t: string)
    requires t != [] && t[0] == '-' && IsDigitGroups(t[1..])
    ensures ParseStripped(t) == Some(-(DigitsValue(t[1..]) as int))
  {
  }

  /** The digits of a natural number are digit groups, with neither sign nor space in front. */
  lemma NatDigitsShape(m: nat)
    ensures IsDigitGroups(NatDigits(m))
    ensures !IsSpace(NatDigits(m)[0]) && !IsSpace(NatDigits(m)[|NatDigits(m)| - 1])
    ensures NatDigits(m)[0] != '-' && NatDigits(m)[0] != '+'
  {
  }
}
