/**
 * The pieces of Python's `re` engine the routers' patterns use: greedy character-class runs,
 * the word boundary `\b`, the end anchor `$`, and the leftmost-start scan of `re.search`.
 */
module Scan {

  import opened Wrappers
  import opened Text

  /** Every character of `s[a..b]` is in the class `p`. */
  predicate All(s: string, a: nat, b: nat, p: char -> bool) {
    a <= b <= |s| && forall k :: a <= k < b ==> p(s[k])
  }

  /** Where a greedy run of class `p` starting at `i` stops. */
  function RunEnd(s: string, i: nat, p: char -> bool): (j: nat)
    requires i <= |s|
    decreases |s| - i
    ensures i <= j <= |s|
    ensures All(s, i, j, p)
    ensures j == |s| || !p(s[j])
  {
    if i < |s| && p(s[i]) then RunEnd(s, i + 1, p) else i
  }

  /** A run of class `p` that cannot be extended is the greedy run. */
  lemma RunEndUnique(s: string, i: nat, j: nat, p: char -> bool)
    requires All(s, i, j, p)
    requires j == |s| || !p(s[j])
    ensures RunEnd(s, i, p) == j
  {
  }

  /** A greedy run reaches at least as far as any run of the same class. */
  lemma {:induction false} RunEndCovers(s: string, i: nat, j: nat, p: char -> bool)
    requires All(s, i, j, p)
    ensures j <= RunEnd(s, i, p)
    decreases j - i
  {
    if i < j {
      RunEndCovers(s, i + 1, j, p);
    }
  }

  /** `\b`: a word character on exactly one side of position `i`. */
  predicate Boundary(s: string, i: nat) {
    (0 < i <= |s| && IsWordChar(s[i - 1])) != (i < |s| && IsWordChar(s[i]))
  }

  /** `$` without MULTILINE: the end of the string, or just before a final line feed. */
  predicate EndAnchor(s: string, i: nat) {
    i == |s| || (i + 1 == |s| && s[i] == '\n')
  }

  /** A keyword that starts with a letter starts on a letter of `s`, so not on whitespace. */
  lemma KeywordStartsOnLetter(s: string, a: nat, w: string)
    requires CiAt(s, a, w) && |w| > 0 && IsAsciiLetter(w[0])
    ensures a < |s| && IsAsciiLetter(s[a]) && !IsSpace(s[a]) && IsWordChar(s[a])
  {
    assert Lower(s[a + 0]) == Lower(w[0]);
  }

  /**
   * `re.search`: the leftmost start position, from `from` on, at which the pattern `at` matches.
   * Positions run up to and including `|s|`, where only an empty match could start.
   */
  function FirstMatch<T>(s: string, at: (string, nat) -> Option<T>, from: nat): (r: Option<nat>)
    decreases |s| + 1 - from
    ensures r.Some? ==> from <= r.value <= |s| && at(s, r.value).Some?
    ensures r.Some? ==> forall i :: from <= i < r.value ==> at(s, i).None?
    ensures r.None? ==> forall i :: from <= i <= |s| ==> at(s, i).None?
  {
    if from > |s| then None
    else if at(s, from).Some? then Some(from)
    else FirstMatch(s, at, from + 1)
  }

  /** What `re.search` returns: the match at the leftmost start position where there is one. */
  function Search<T>(s: string, at: (string, nat) -> Option<T>): (r: Option<T>)
    ensures r.Some? ==> exists i: nat :: i <= |s| && at(s, i) == r && forall j: nat :: j < i ==> at(s, j).None?
    ensures r.None? ==> forall i: nat :: i <= |s| ==> at(s, i).None?
  {
    match FirstMatch(s, at, 0)
    case Some(i) => at(s, i)
    case None => None
  }
}
