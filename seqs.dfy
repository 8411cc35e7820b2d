/** Facts about sequences the prefix-recursive definitions of the other modules need,
    each proved once, away from those definitions. */
module Seqs {
  /** Dropping the last element of a concatenation whose second part is not empty. */
  lemma InitOfAppend<T>(a: seq<T>, b: seq<T>)
    requires |b| > 0
    ensures (a + b)[..|a + b| - 1] == a + b[..|b| - 1]
    ensures (a + b)[|a + b| - 1] == b[|b| - 1]
  {
  }

  /** A sequence is its part before `i`, its element at `i`, and its part after. */
  lemma SplitAt<T>(s: seq<T>, i: nat)
    requires i < |s|
    ensures s == s[..i] + [s[i]] + s[i + 1..]
  {
  }

  /** The prefix of length `i + 1` is the prefix of length `i` and one more element. */
  lemma PrefixSnoc<T>(s: seq<T>, i: nat)
    requires i < |s|
    ensures s[..i + 1] == s[..i] + [s[i]]
    ensures s[..i + 1][..i] == s[..i]
  {
  }
}
