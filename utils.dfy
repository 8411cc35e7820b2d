/** `serie_a_db/utils.py`: whitespace normalisation and splitting without blank pieces. */
module Utils {
  import opened PyStr

  /** `strip_whitespaces_and_newlines`: the whitespace-separated tokens joined by single
      spaces, with any newline then removed. */
  function StripWhitespacesAndNewlines(s: string): string {
    Replace(Join(" ", Tokens(s)), "\n", "")
  }

  /** The shape of a normalised string: no whitespace at either end, and every
      whitespace character is a single space followed by a non-whitespace one. */
  predicate SingleSpaced(r: string) {
    && (r != [] ==> !IsSpace(r[0]) && !IsSpace(r[|r| - 1]))
    && forall i :: 0 <= i < |r| && IsSpace(r[i]) ==> r[i] == ' ' && i + 1 < |r| && !IsSpace(r[i + 1])
  }

  lemma {:induction false} JoinOfWords(words: seq<string>)
    requires forall w | w in words :: IsWord(w)
    ensures Join(" ", words) == [] <==> words == []
    ensures SingleSpaced(Join(" ", words))
    decreases |words|
  {
    if |words| > 1 {
      var w, rest := words[0], words[1..];
      assert [w] + rest == words;
      JoinCons(" ", w, rest);
      var t := Join(" ", rest);
      JoinOfWords(rest);
      var r := w + " " + t;
      assert w in words;
      forall i | 0 <= i < |r|
        ensures IsSpace(r[i]) ==> r[i] == ' ' && i + 1 < |r| && !IsSpace(r[i + 1])
      {
        if i > |w| {
          assert r[i] == t[i - |w| - 1];
          assert i + 1 < |r| ==> r[i + 1] == t[i - |w|];
        } else if i < |w| {
          assert r[i] == w[i];
        }
      }
      assert w[0] == r[0];
      assert r[|r| - 1] == t[|t| - 1];
    } else if |words| == 1 {
      assert words[0] in words;
    }
  }

  /** The newline removal never changes anything: the joined tokens hold no newline. */
  lemma NormalizedIsJoinedTokens(s: string)
    ensures StripWhitespacesAndNewlines(s) == Join(" ", Tokens(s))
  {
    TokensAreWords(s);
    var j := Join(" ", Tokens(s));
    JoinOfWords(Tokens(s));
    ContainsChar(j, '\n');
    ReplaceAbsent(j, "\n", "");
  }

  /** No newline, no leading or trailing whitespace, never two adjacent spaces. */
  lemma NormalizedShape(s: string)
    ensures var r := StripWhitespacesAndNewlines(s);
      && '\n' !in r
      && SingleSpaced(r)
      && forall i :: 0 <= i < |r| - 1 ==> !(r[i] == ' ' && r[i + 1] == ' ')
  {
    NormalizedIsJoinedTokens(s);
    TokensAreWords(s);
    JoinOfWords(Tokens(s));
    var r := StripWhitespacesAndNewlines(s);
    forall i | 0 <= i < |r| ensures r[i] != '\n' {
      if r[i] == '\n' { assert IsSpace(r[i]); }
    }
  }

  /** Normalisation keeps the sequence of tokens. */
  lemma NormalizedTokens(s: string)
    ensures Tokens(StripWhitespacesAndNewlines(s)) == Tokens(s)
  {
    NormalizedIsJoinedTokens(s);
    TokensAreWords(s);
    TokensOfJoin(Tokens(s));
  }

  lemma NormalizeIdempotent(s: string)
    ensures StripWhitespacesAndNewlines(StripWhitespacesAndNewlines(s)) == StripWhitespacesAndNewlines(s)
  {
    NormalizedTokens(s);
  }

  /** Two strings normalise alike exactly when they have the same tokens, i.e. when they
      differ only in runs of whitespace. */
  lemma NormalizeEqualIffSameTokens(a: string, b: string)
    ensures StripWhitespacesAndNewlines(a) == StripWhitespacesAndNewlines(b) <==> Tokens(a) == Tokens(b)
  {
    NormalizedTokens(a);
    NormalizedTokens(b);
  }

  /** A piece is blank when it normalises to the empty string. */
  predicate Blank(s: string) {
    StripWhitespacesAndNewlines(s) == []
  }

  lemma BlankIffAllSpace(s: string)
    ensures Blank(s) <==> AllSpace(s)
  {
    NormalizedIsJoinedTokens(s);
    TokensAreWords(s);
    JoinOfWords(Tokens(s));
    TokensEmpty(s);
  }

  /** The pieces that are not blank, in their original order. */
  function NonBlank(pieces: seq<string>): (r: seq<string>)
    ensures forall p | p in r :: p in pieces && !Blank(p)
    ensures forall p | p in pieces && !Blank(p) :: p in r
    ensures |r| <= |pieces|
  {
    if pieces == [] then []
    else if Blank(pieces[0]) then NonBlank(pieces[1..])
    else [pieces[0]] + NonBlank(pieces[1..])
  }

  lemma {:induction false} NonBlankAppend(a: seq<string>, b: seq<string>)
    ensures NonBlank(a + b) == NonBlank(a) + NonBlank(b)
    decreases |a|
  {
    if a == [] {
      assert a + b == b;
    } else {
      assert (a + b)[0] == a[0];
      assert (a + b)[1..] == a[1..] + b;
      NonBlankAppend(a[1..], b);
    }
  }

  lemma NonBlankOfNonBlank(pieces: seq<string>)
    requires forall p | p in pieces :: !Blank(p)
    ensures NonBlank(pieces) == pieces
  {
  }

  /** `split_no_empty(s, sep, maxplit)`. */
  function SplitNoEmpty(s: string, sep: string, maxsplit: int): seq<string>
    requires sep != []
  {
    NonBlank(Split(s, sep, maxsplit))
  }

  /** With `maxplit = k >= 0` at most `k + 1` pieces; with no limit no piece contains `sep`. */
  lemma SplitNoEmptyBounds(s: string, sep: string, maxsplit: int)
    requires sep != []
    ensures maxsplit >= 0 ==> |SplitNoEmpty(s, sep, maxsplit)| <= maxsplit + 1
    ensures maxsplit < 0 ==> forall p | p in SplitNoEmpty(s, sep, maxsplit) :: !Contains(p, sep)
    ensures forall p | p in SplitNoEmpty(s, sep, maxsplit) :: !AllSpace(p)
  {
    if maxsplit < 0 {
      SplitPiecesLackSeparator(s, sep, maxsplit);
    }
    forall p | p in SplitNoEmpty(s, sep, maxsplit) ensures !AllSpace(p) {
      BlankIffAllSpace(p);
    }
  }

  /** A script written as non-blank statements joined by `;` splits back into them. */
  lemma SplitNoEmptyOfJoin(parts: seq<string>, c: char)
    requires parts != []
    requires forall p | p in parts :: c !in p && !Blank(p)
    ensures SplitNoEmpty(Join([c], parts), [c], -1) == parts
  {
    SplitJoin(parts, [c]);
    NonBlankOfNonBlank(parts);
  }
}
