/**
 * One matcher per regular expression of the two routers, each paired with a declarative
 * `...Shape` predicate: the positions that split a match into the pattern's pieces. A matcher
 * computes the match Python's backtracking engine finds at one start position. Its lemmas
 * (`...Spec`, or the pair `...Found` and `...Exact`) say that the matcher succeeds exactly when a
 * shape exists there and returns that shape's capture. Letter keywords match in either case
 * (`re.IGNORECASE`).
 */
module Patterns {

  import opened Wrappers
  import opened Text
  import opened Scan

  // ---------------------------------------------------------------- \b(list|show)\s+tables\b

  ghost predicate ListShowTablesShape(s: string, i: nat, a: nat) {
    && Boundary(s, i)
    && (CiAt(s, i, "list") || CiAt(s, i, "show"))
    && i + 4 < a && All(s, i + 4, a, IsSpace)
    && CiAt(s, a, "tables") && Boundary(s, a + 6)
  }

  function ListShowTablesAt(s: string, i: nat): Option<string> {
    if i + 4 <= |s| && Boundary(s, i) && (CiAt(s, i, "list") || CiAt(s, i, "show")) then
      var a := RunEnd(s, i + 4, IsSpace);
      if a > i + 4 && CiAt(s, a, "tables") && Boundary(s, a + 6) then Some(s[i..i + 4]) else None
    else None
  }

  lemma ListShowTablesSpec(s: string, i: nat)
    ensures ListShowTablesAt(s, i).Some? <==> exists a: nat :: ListShowTablesShape(s, i, a)
  {
    if ListShowTablesAt(s, i).Some? {
      assert ListShowTablesShape(s, i, RunEnd(s, i + 4, IsSpace));
    }
    forall a: nat | ListShowTablesShape(s, i, a)
      ensures ListShowTablesAt(s, i).Some?
    {
      KeywordStartsOnLetter(s, a, "tables");
      RunEndUnique(s, i + 4, a, IsSpace);
    }
  }

  // ---------------------------------------------------------------- \b(schema|columns)\b

  predicate SchemaWordShape(s: string, i: nat) {
    && Boundary(s, i)
    && ((CiAt(s, i, "schema") && Boundary(s, i + 6)) || (CiAt(s, i, "columns") && Boundary(s, i + 7)))
  }

  function SchemaWordAt(s: string, i: nat): (r: Option<string>)
    ensures r.Some? <==> SchemaWordShape(s, i)
  {
    if Boundary(s, i) && CiAt(s, i, "schema") && Boundary(s, i + 6) then Some(s[i..i + 6])
    else if Boundary(s, i) && CiAt(s, i, "columns") && Boundary(s, i + 7) then Some(s[i..i + 7])
    else None
  }

  // ---------------------------------------------------------------- \bsummary\s+(P\d+)\b

  ghost predicate SummaryShape(s: string, i: nat, a: nat, e: nat) {
    && Boundary(s, i) && CiAt(s, i, "summary")
    && i + 7 < a && All(s, i + 7, a, IsSpace)
    && CiAt(s, a, "P") && a + 1 < e && All(s, a + 1, e, IsDigit) && Boundary(s, e)
  }

  function SummaryAt(s: string, i: nat): Option<string> {
    if i + 7 <= |s| && Boundary(s, i) && CiAt(s, i, "summary") then
      var a := RunEnd(s, i + 7, IsSpace);
      if a > i + 7 && CiAt(s, a, "P") then
        var e := RunEnd(s, a + 1, IsDigit);
        if e > a + 1 && Boundary(s, e) then Some(s[a..e]) else None
      else None
    else None
  }

  /** After a run of digits, `\b` holds only where the digits stop. */
  lemma DigitsEndAtBoundary(s: string, a: nat, e: nat)
    requires a < e && All(s, a, e, IsDigit) && Boundary(s, e)
    ensures e == |s| || !IsDigit(s[e])
  {
    assert IsDigit(s[e - 1]);
  }

  lemma SummaryFound(s: string, i: nat)
    requires SummaryAt(s, i).Some?
    ensures exists a: nat, e: nat :: SummaryShape(s, i, a, e) && SummaryAt(s, i).value == s[a..e]
  {
    var a := RunEnd(s, i + 7, IsSpace);
    assert SummaryShape(s, i, a, RunEnd(s, a + 1, IsDigit));
  }

  lemma SummaryExact(s: string, i: nat, a: nat, e: nat)
    requires SummaryShape(s, i, a, e)
    ensures SummaryAt(s, i) == Some(s[a..e])
  {
    KeywordStartsOnLetter(s, a, "P");
    RunEndUnique(s, i + 7, a, IsSpace);
    DigitsEndAtBoundary(s, a + 1, e);
    RunEndUnique(s, a + 1, e, IsDigit);
  }

  // ------------------------------------- latest\s+([A-Za-z0-9]+)\s+for\s+(P\d+), optionally within \b

  /** With `bounded`, the pattern is wrapped in `\b ... \b`; without, `\d+` simply runs to its end. */
  ghost predicate LatestShape(s: string, i: nat, a: nat, b: nat, c: nat, d: nat, e: nat, bounded: bool) {
    && (bounded ==> Boundary(s, i)) && CiAt(s, i, "latest")
    && i + 6 < a && All(s, i + 6, a, IsSpace)
    && a < b && All(s, a, b, IsAlnum)
    && b < c && All(s, b, c, IsSpace)
    && CiAt(s, c, "for")
    && c + 3 < d && All(s, c + 3, d, IsSpace)
    && CiAt(s, d, "P") && d + 1 < e && All(s, d + 1, e, IsDigit)
    && (if bounded then Boundary(s, e) else e == |s| || !IsDigit(s[e]))
  }

  /** The test token and the patient id, as written. */
  function LatestAt(s: string, i: nat, bounded: bool): Option<(string, string)> {
    if i + 6 <= |s| && (bounded ==> Boundary(s, i)) && CiAt(s, i, "latest") then
      var a := RunEnd(s, i + 6, IsSpace);
      var b := RunEnd(s, a, IsAlnum);
      var c := RunEnd(s, b, IsSpace);
      if a > i + 6 && b > a && c > b && CiAt(s, c, "for") then
        var d := RunEnd(s, c + 3, IsSpace);
        if d > c + 3 && CiAt(s, d, "P") then
          var e := RunEnd(s, d + 1, IsDigit);
          if e > d + 1 && (bounded ==> Boundary(s, e)) then Some((s[a..b], s[d..e])) else None
        else None
      else None
    else None
  }

  function LatestWordAt(s: string, i: nat): Option<(string, string)> {
    LatestAt(s, i, true)
  }

  function LatestAnyAt(s: string, i: nat): Option<(string, string)> {
    LatestAt(s, i, false)
  }

  lemma LatestShapeUnique(s: string, i: nat, a: nat, b: nat, c: nat, d: nat, e: nat, bounded: bool)
    requires LatestShape(s, i, a, b, c, d, e, bounded)
    ensures a == RunEnd(s, i + 6, IsSpace) && b == RunEnd(s, a, IsAlnum) && c == RunEnd(s, b, IsSpace)
    ensures d == RunEnd(s, c + 3, IsSpace) && e == RunEnd(s, d + 1, IsDigit)
  {
    assert IsAlnum(s[a]);
    RunEndUnique(s, i + 6, a, IsSpace);
    RunEndUnique(s, a, b, IsAlnum);
    KeywordStartsOnLetter(s, c, "for");
    RunEndUnique(s, b, c, IsSpace);
    KeywordStartsOnLetter(s, d, "P");
    RunEndUnique(s, c + 3, d, IsSpace);
    if bounded {
      DigitsEndAtBoundary(s, d + 1, e);
    }
    RunEndUnique(s, d + 1, e, IsDigit);
  }

  lemma LatestFound(s: string, i: nat, bounded: bool)
    requires LatestAt(s, i, bounded).Some?
    ensures exists a: nat, b: nat, c: nat, d: nat, e: nat ::
              LatestShape(s, i, a, b, c, d, e, bounded) && LatestAt(s, i, bounded).value == (s[a..b], s[d..e])
  {
    var a := RunEnd(s, i + 6, IsSpace);
    var b := RunEnd(s, a, IsAlnum);
    var c := RunEnd(s, b, IsSpace);
    var d := RunEnd(s, c + 3, IsSpace);
    assert LatestShape(s, i, a, b, c, d, RunEnd(s, d + 1, IsDigit), bounded);
  }

  lemma LatestExact(s: string, i: nat, a: nat, b: nat, c: nat, d: nat, e: nat, bounded: bool)
    requires LatestShape(s, i, a, b, c, d, e, bounded)
    ensures LatestAt(s, i, bounded) == Some((s[a..b], s[d..e]))
  {
    LatestShapeUnique(s, i, a, b, c, d, e, bounded);
  }

  // ---------------------------------------------------------------- \bICD\s*10\b.*\b([A-Z]\d{2})\b

  ghost predicate IcdPrefixShape(s: string, i: nat, m: nat) {
    && Boundary(s, i) && CiAt(s, i, "ICD")
    && i + 3 <= m && All(s, i + 3, m, IsSpace)
    && CiAt(s, m, "10") && Boundary(s, m + 2)
  }

  /** `\b[A-Z]\d{2}\b` under IGNORECASE: a word of one letter and two digits. */
  predicate CodeWordAt(s: string, k: nat) {
    && k + 3 <= |s| && Boundary(s, k)
    && IsAsciiLetter(s[k]) && IsDigit(s[k + 1]) && IsDigit(s[k + 2])
    && Boundary(s, k + 3)
  }

  /** The code word at `k` is reachable from the prefix ending at `m + 2` through `.*`. */
  ghost predicate IcdWordShape(s: string, i: nat, m: nat, k: nat) {
    IcdPrefixShape(s, i, m) && m + 2 <= k && All(s, m + 2, k, NotNewline) && CodeWordAt(s, k)
  }

  /** Greedy `.*` settles on the last reachable code word. */
  ghost predicate LastIcdWordShape(s: string, i: nat, m: nat, k: nat) {
    IcdWordShape(s, i, m, k) && forall k': nat :: k < k' ==> !IcdWordShape(s, i, m, k')
  }

  /** The last position in `[lo, hi)` where a code word starts: greedy `.*` tries the far end first. */
  function LastCodeWord(s: string, lo: nat, hi: nat): (r: Option<nat>)
    decreases hi
    ensures r.Some? ==> lo <= r.value < hi && CodeWordAt(s, r.value)
    ensures r.Some? ==> forall k: nat :: r.value < k < hi ==> !CodeWordAt(s, k)
    ensures r.None? ==> forall k: nat :: lo <= k < hi ==> !CodeWordAt(s, k)
  {
    if hi <= lo then None
    else if CodeWordAt(s, hi - 1) then Some(hi - 1)
    else LastCodeWord(s, lo, hi - 1)
  }

  function IcdWordAt(s: string, i: nat): Option<string> {
    if i + 3 <= |s| && Boundary(s, i) && CiAt(s, i, "ICD") then
      var m := RunEnd(s, i + 3, IsSpace);
      if CiAt(s, m, "10") && Boundary(s, m + 2) then
        match LastCodeWord(s, m + 2, RunEnd(s, m + 2, NotNewline))
        case Some(k) => Some(s[k..k + 3])
        case None => None
      else None
    else None
  }

  lemma IcdPrefixUnique(s: string, i: nat, m: nat)
    requires IcdPrefixShape(s, i, m)
    ensures m == RunEnd(s, i + 3, IsSpace)
  {
    assert Lower(s[m + 0]) == Lower("10"[0]);
    RunEndUnique(s, i + 3, m, IsSpace);
  }

  /** The code words reachable through `.*` are those before the end of the line. */
  lemma ReachableCodeWord(s: string, m: nat, k: nat)
    requires m + 2 <= |s|
    ensures (m + 2 <= k && All(s, m + 2, k, NotNewline) && CodeWordAt(s, k))
            <==> (m + 2 <= k < RunEnd(s, m + 2, NotNewline) && CodeWordAt(s, k))
  {
    if m + 2 <= k && All(s, m + 2, k, NotNewline) && CodeWordAt(s, k) {
      assert NotNewline(s[k]);
      assert All(s, m + 2, k + 1, NotNewline);
      RunEndCovers(s, m + 2, k + 1, NotNewline);
    }
  }

  lemma IcdWordFound(s: string, i: nat)
    requires IcdWordAt(s, i).Some?
    ensures exists m: nat, k: nat :: LastIcdWordShape(s, i, m, k) && IcdWordAt(s, i).value == s[k..k + 3]
  {
    var m := RunEnd(s, i + 3, IsSpace);
    var h := RunEnd(s, m + 2, NotNewline);
    var k := LastCodeWord(s, m + 2, h).value;
    ReachableCodeWord(s, m, k);
    forall k': nat | k < k'
      ensures !IcdWordShape(s, i, m, k')
    {
      ReachableCodeWord(s, m, k');
    }
    assert LastIcdWordShape(s, i, m, k);
  }

  lemma IcdWordExists(s: string, i: nat, m: nat, k: nat)
    requires IcdWordShape(s, i, m, k)
    ensures IcdWordAt(s, i).Some?
  {
    IcdPrefixUnique(s, i, m);
    ReachableCodeWord(s, m, k);
  }

  lemma IcdWordExact(s: string, i: nat, m: nat, k: nat)
    requires LastIcdWordShape(s, i, m, k)
    ensures IcdWordAt(s, i) == Some(s[k..k + 3])
  {
    IcdPrefixUnique(s, i, m);
    ReachableCodeWord(s, m, k);
    var r := LastCodeWord(s, m + 2, RunEnd(s, m + 2, NotNewline));
    ReachableCodeWord(s, m, r.value);
    assert IcdWordShape(s, i, m, r.value);
  }

  // ---------------------------------------------------------------- patients\s+with\s+icd10\s+([A-Z0-9.]+)

  /** The class `[A-Z0-9.]` under IGNORECASE. */
  predicate IsCodeChar(c: char) {
    IsAlnum(c) || c == '.'
  }

  ghost predicate IcdPhraseShape(s: string, i: nat, a: nat, b: nat, c: nat, e: nat) {
    && CiAt(s, i, "patients")
    && i + 8 < a && All(s, i + 8, a, IsSpace) && CiAt(s, a, "with")
    && a + 4 < b && All(s, a + 4, b, IsSpace) && CiAt(s, b, "icd10")
    && b + 5 < c && All(s, b + 5, c, IsSpace)
    && c < e && All(s, c, e, IsCodeChar) && (e == |s| || !IsCodeChar(s[e]))
  }

  function IcdPhraseAt(s: string, i: nat): Option<string> {
    if i + 8 <= |s| && CiAt(s, i, "patients") then
      var a := RunEnd(s, i + 8, IsSpace);
      if a > i + 8 && CiAt(s, a, "with") then
        var b := RunEnd(s, a + 4, IsSpace);
        if b > a + 4 && CiAt(s, b, "icd10") then
          var c := RunEnd(s, b + 5, IsSpace);
          var e := RunEnd(s, c, IsCodeChar);
          if c > b + 5 && e > c then Some(s[c..e]) else None
        else None
      else None
    else None
  }

  lemma IcdPhraseFound(s: string, i: nat)
    requires IcdPhraseAt(s, i).Some?
    ensures exists a: nat, b: nat, c: nat, e: nat :: IcdPhraseShape(s, i, a, b, c, e) && IcdPhraseAt(s, i).value == s[c..e]
  {
    var a := RunEnd(s, i + 8, IsSpace);
    var b := RunEnd(s, a + 4, IsSpace);
    var c := RunEnd(s, b + 5, IsSpace);
    assert IcdPhraseShape(s, i, a, b, c, RunEnd(s, c, IsCodeChar));
  }

  lemma IcdPhraseShapeUnique(s: string, i: nat, a: nat, b: nat, c: nat, e: nat)
    requires IcdPhraseShape(s, i, a, b, c, e)
    ensures a == RunEnd(s, i + 8, IsSpace) && b == RunEnd(s, a + 4, IsSpace)
    ensures c == RunEnd(s, b + 5, IsSpace) && e == RunEnd(s, c, IsCodeChar)
  {
    KeywordStartsOnLetter(s, a, "with");
    RunEndUnique(s, i + 8, a, IsSpace);
    KeywordStartsOnLetter(s, b, "icd10");
    RunEndUnique(s, a + 4, b, IsSpace);
    assert IsCodeChar(s[c]);
    RunEndUnique(s, b + 5, c, IsSpace);
    RunEndUnique(s, c, e, IsCodeChar);
  }

  lemma IcdPhraseExact(s: string, i: nat, a: nat, b: nat, c: nat, e: nat)
    requires IcdPhraseShape(s, i, a, b, c, e)
    ensures IcdPhraseAt(s, i) == Some(s[c..e])
  {
    IcdPhraseShapeUnique(s, i, a, b, c, e);
  }

  // ---------------------------------------------------------------- find\s+patient\s+(.+)$, optionally after \b

  ghost predicate FindShape(s: string, i: nat, a: nat, p: nat, e: nat, bounded: bool) {
    && (bounded ==> Boundary(s, i)) && CiAt(s, i, "find")
    && i + 4 < a && All(s, i + 4, a, IsSpace) && CiAt(s, a, "patient")
    && a + 7 < p && All(s, a + 7, p, IsSpace)
    && p < e && All(s, p, e, NotNewline) && EndAnchor(s, e)
  }

  /** Greedy `\s+` before the capture leaves the capture starting as late as possible. */
  ghost predicate GreedyFindShape(s: string, i: nat, a: nat, p: nat, e: nat, bounded: bool) {
    FindShape(s, i, a, p, e, bounded) && forall a': nat, p': nat, e': nat :: FindShape(s, i, a', p', e', bounded) ==> p' <= p
  }

  /** `(.+)$` matches from `p`: the rest of the line is non-empty and ends the string. */
  predicate RestMatches(s: string, p: nat) {
    p < |s| && p < RunEnd(s, p, NotNewline) && EndAnchor(s, RunEnd(s, p, NotNewline))
  }

  /**
   * The largest start in `(q, p]` from which `(.+)$` matches: greedy `\s+` first takes the whole
   * whitespace run and gives characters back one at a time.
   */
  function GreedyRest(s: string, q: nat, p: nat): (r: Option<nat>)
    decreases p
    ensures r.Some? ==> q < r.value <= p && RestMatches(s, r.value)
    ensures r.Some? ==> forall p': nat :: r.value < p' <= p ==> !RestMatches(s, p')
    ensures r.None? ==> forall p': nat :: q < p' <= p ==> !RestMatches(s, p')
  {
    if p <= q then None
    else if RestMatches(s, p) then Some(p)
    else GreedyRest(s, q, p - 1)
  }

  function FindAt(s: string, i: nat, bounded: bool): Option<string> {
    if i + 4 <= |s| && (bounded ==> Boundary(s, i)) && CiAt(s, i, "find") then
      var a := RunEnd(s, i + 4, IsSpace);
      if a > i + 4 && CiAt(s, a, "patient") then
        match GreedyRest(s, a + 7, RunEnd(s, a + 7, IsSpace))
        case Some(p) => Some(s[p..RunEnd(s, p, NotNewline)])
        case None => None
      else None
    else None
  }

  function FindWordAt(s: string, i: nat): Option<string> {
    FindAt(s, i, true)
  }

  function FindAnyAt(s: string, i: nat): Option<string> {
    FindAt(s, i, false)
  }

  /** `.+$` from `p` can end in one place only. */
  lemma RestEndUnique(s: string, p: nat, e: nat)
    requires p < e && All(s, p, e, NotNewline) && EndAnchor(s, e)
    ensures RestMatches(s, p) && e == RunEnd(s, p, NotNewline)
  {
    RunEndUnique(s, p, e, NotNewline);
  }

  /** The positions of `find` and `patient` are fixed by the start position. */
  lemma FindKeywordsUnique(s: string, i: nat, a: nat, p: nat, e: nat, bounded: bool)
    requires FindShape(s, i, a, p, e, bounded)
    ensures a == RunEnd(s, i + 4, IsSpace) && p <= RunEnd(s, a + 7, IsSpace)
    ensures RestMatches(s, p) && e == RunEnd(s, p, NotNewline)
  {
    KeywordStartsOnLetter(s, a, "patient");
    RunEndUnique(s, i + 4, a, IsSpace);
    RunEndCovers(s, a + 7, p, IsSpace);
    RestEndUnique(s, p, e);
  }

  lemma FindFound(s: string, i: nat, bounded: bool)
    requires FindAt(s, i, bounded).Some?
    ensures exists a: nat, p: nat, e: nat :: GreedyFindShape(s, i, a, p, e, bounded) && FindAt(s, i, bounded).value == s[p..e]
  {
    var a := RunEnd(s, i + 4, IsSpace);
    var m := RunEnd(s, a + 7, IsSpace);
    var p := GreedyRest(s, a + 7, m).value;
    var e := RunEnd(s, p, NotNewline);
    forall a': nat, p': nat, e': nat | FindShape(s, i, a', p', e', bounded)
      ensures p' <= p
    {
      FindKeywordsUnique(s, i, a', p', e', bounded);
    }
    assert GreedyFindShape(s, i, a, p, e, bounded);
  }

  lemma FindExists(s: string, i: nat, a: nat, p: nat, e: nat, bounded: bool)
    requires FindShape(s, i, a, p, e, bounded)
    ensures FindAt(s, i, bounded).Some?
  {
    FindKeywordsUnique(s, i, a, p, e, bounded);
  }

  lemma FindExact(s: string, i: nat, a: nat, p: nat, e: nat, bounded: bool)
    requires GreedyFindShape(s, i, a, p, e, bounded)
    ensures FindAt(s, i, bounded) == Some(s[p..e])
  {
    FindExists(s, i, a, p, e, bounded);
    FindFound(s, i, bounded);
    var a': nat, p': nat, e': nat :| GreedyFindShape(s, i, a', p', e', bounded) && FindAt(s, i, bounded).value == s[p'..e'];
    FindKeywordsUnique(s, i, a, p, e, bounded);
    FindKeywordsUnique(s, i, a', p', e', bounded);
  }

  // ---------------------------------------------------------------- re.fullmatch(w1\s+w2)

  /** The whole line is `w1`, some whitespace, then `w2`. */
  ghost predicate TwoWordShape(s: string, w1: string, w2: string) {
    && |w1| < |s| - |w2|
    && CiAt(s, 0, w1)
    && All(s, |w1|, |s| - |w2|, IsSpace)
    && CiAt(s, |s| - |w2|, w2)
  }

  function IsTwoWordLine(s: string, w1: string, w2: string): bool {
    && CiAt(s, 0, w1)
    && var a := RunEnd(s, |w1|, IsSpace);
       a > |w1| && CiAt(s, a, w2) && a + |w2| == |s|
  }

  lemma TwoWordSpec(s: string, w1: string, w2: string)
    requires |w2| > 0 && IsAsciiLetter(w2[0])
    ensures IsTwoWordLine(s, w1, w2) <==> TwoWordShape(s, w1, w2)
  {
    if TwoWordShape(s, w1, w2) {
      KeywordStartsOnLetter(s, |s| - |w2|, w2);
      RunEndUnique(s, |w1|, |s| - |w2|, IsSpace);
    }
  }

  // ---------------------------------------------------------------- what the routers make of captures

  /** A patient id as the routers emit it: `P` and at least one digit. */
  predicate IsPatientId(x: string) {
    |x| >= 2 && x[0] == 'P' && forall k :: 1 <= k < |x| ==> IsDigit(x[k])
  }

  /** `(P\d+)`, upper-cased, is a patient id whichever case the `P` was typed in. */
  lemma UpperPatientId(s: string, a: nat, e: nat)
    requires CiAt(s, a, "P") && a + 1 < e && All(s, a + 1, e, IsDigit)
    ensures IsPatientId(UpperStr(s[a..e]))
  {
    assert Lower(s[a + 0]) == Lower("P"[0]);
  }

  /** An upper-cased token of the class `cls`: non-empty, in the class, no lower-case letter. */
  predicate IsUpperToken(x: string, cls: char -> bool) {
    |x| > 0 && forall k :: 0 <= k < |x| ==> cls(x[k]) && !('a' <= x[k] <= 'z')
  }

  lemma UpperToken(s: string, a: nat, b: nat, cls: char -> bool)
    requires a < b && All(s, a, b, cls)
    requires forall c :: cls(c) ==> cls(Upper(c))
    ensures IsUpperToken(UpperStr(s[a..b]), cls)
  {
    forall k | 0 <= k < b - a
      ensures cls(UpperStr(s[a..b])[k])
    {
      assert cls(s[a + k]);
    }
  }

  /** Both captures of a `latest` match, upper-cased, have the shape `latest_lab` is given. */
  lemma LatestArgsWellFormed(s: string, i: nat, a: nat, b: nat, c: nat, d: nat, e: nat, bounded: bool)
    requires LatestShape(s, i, a, b, c, d, e, bounded)
    ensures IsPatientId(UpperStr(s[d..e])) && IsUpperToken(UpperStr(s[a..b]), IsAlnum)
  {
    UpperPatientId(s, d, e);
    UpperToken(s, a, b, IsAlnum);
  }

  /** A code as `agent.py` emits it: an upper-case letter and two digits. */
  predicate IsIcdCode(x: string) {
    |x| == 3 && 'A' <= x[0] <= 'Z' && IsDigit(x[1]) && IsDigit(x[2])
  }

  lemma UpperCodeWord(s: string, k: nat)
    requires CodeWordAt(s, k)
    ensures IsIcdCode(UpperStr(s[k..k + 3]))
  {
  }

  /** In a stripped line, `(.+)$` captures text that is not all whitespace, so it survives `strip`. */
  lemma RestIsNotBlank(s: string, p: nat, e: nat)
    requires IsTrimmed(s) && p < e && All(s, p, e, NotNewline) && EndAnchor(s, e)
    ensures Trim(s[p..e]) != ""
  {
    assert e == |s|;
    TrimKeepsLastChar(s[p..e]);
  }
}
