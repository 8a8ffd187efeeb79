/**
 * `re.search` for each routing pattern, stated declaratively: a search finds nothing exactly
 * when no shape of the pattern occurs anywhere in the line, and otherwise returns the capture of
 * the leftmost occurrence (for greedy patterns, the occurrence the greedy pieces settle on).
 */
module Searches {

  import opened Wrappers
  import opened Text
  import opened Scan
  import opened Patterns

  // ---------------------------------------------------------------- \b(list|show)\s+tables\b

  ghost predicate ListTablesOccurs(s: string) {
    exists i: nat, a: nat :: ListShowTablesShape(s, i, a)
  }

  lemma ListTablesSearch(s: string)
    ensures Search(s, ListShowTablesAt).Some? <==> ListTablesOccurs(s)
  {
    if Search(s, ListShowTablesAt).Some? {
      var i: nat :| i <= |s| && ListShowTablesAt(s, i) == Search(s, ListShowTablesAt);
      ListShowTablesSpec(s, i);
    }
    if ListTablesOccurs(s) {
      var i: nat, a: nat :| ListShowTablesShape(s, i, a);
      ListShowTablesSpec(s, i);
      assert i <= |s| && ListShowTablesAt(s, i).Some?;
    }
  }

  // ---------------------------------------------------------------- \b(schema|columns)\b

  ghost predicate SchemaOccurs(s: string) {
    exists i: nat :: SchemaWordShape(s, i)
  }

  lemma SchemaSearch(s: string)
    ensures Search(s, SchemaWordAt).Some? <==> SchemaOccurs(s)
  {
    if Search(s, SchemaWordAt).Some? {
      var i: nat :| i <= |s| && SchemaWordAt(s, i) == Search(s, SchemaWordAt);
      assert SchemaWordShape(s, i);
    }
    if SchemaOccurs(s) {
      var i: nat :| SchemaWordShape(s, i);
      assert i <= |s| && SchemaWordAt(s, i).Some?;
    }
  }

  // ---------------------------------------------------------------- \bsummary\s+(P\d+)\b

  ghost predicate SummaryOccurs(s: string) {
    exists i: nat, a: nat, e: nat :: SummaryShape(s, i, a, e)
  }

  ghost predicate FirstSummary(s: string, i: nat, a: nat, e: nat) {
    SummaryShape(s, i, a, e) && forall i': nat, a': nat, e': nat :: i' < i ==> !SummaryShape(s, i', a', e')
  }

  /** `x` is what `(P\d+)` captures in the leftmost occurrence. */
  ghost predicate SummaryCaptures(s: string, x: string) {
    exists i: nat, a: nat, e: nat :: FirstSummary(s, i, a, e) && x == s[a..e]
  }

  lemma SummarySearch(s: string)
    ensures Search(s, SummaryAt).None? <==> !SummaryOccurs(s)
    ensures Search(s, SummaryAt).Some? ==> SummaryCaptures(s, Search(s, SummaryAt).value)
  {
    forall i: nat, a: nat, e: nat | SummaryShape(s, i, a, e)
      ensures i <= |s| && SummaryAt(s, i).Some?
    {
      SummaryExact(s, i, a, e);
    }
    var r := Search(s, SummaryAt);
    if r.Some? {
      var i: nat :| i <= |s| && SummaryAt(s, i) == r && forall j: nat :: j < i ==> SummaryAt(s, j).None?;
      SummaryFound(s, i);
      var a: nat, e: nat :| SummaryShape(s, i, a, e) && r.value == s[a..e];
      assert FirstSummary(s, i, a, e);
    }
  }

  // ---------------------------------------------------------------- latest ... for P\d+

  ghost predicate LatestOccurs(s: string, bounded: bool) {
    exists i: nat, a: nat, b: nat, c: nat, d: nat, e: nat :: LatestShape(s, i, a, b, c, d, e, bounded)
  }

  ghost predicate FirstLatest(s: string, i: nat, a: nat, b: nat, c: nat, d: nat, e: nat, bounded: bool) {
    && LatestShape(s, i, a, b, c, d, e, bounded)
    && forall i': nat, a': nat, b': nat, c': nat, d': nat, e': nat ::
         i' < i ==> !LatestShape(s, i', a', b', c', d', e', bounded)
  }

  /** The search of `agent.py` (with `\b` on both ends) or of `agent_core.py` (without). */
  function SearchLatest(s: string, bounded: bool): Option<(string, string)> {
    if bounded then Search(s, LatestWordAt) else Search(s, LatestAnyAt)
  }

  /** `(test, pid)` is what the two groups capture in the leftmost occurrence. */
  ghost predicate LatestCaptures(s: string, test: string, pid: string, bounded: bool) {
    exists i: nat, a: nat, b: nat, c: nat, d: nat, e: nat ::
      FirstLatest(s, i, a, b, c, d, e, bounded) && test == s[a..b] && pid == s[d..e]
  }

  lemma LatestSearch(s: string, bounded: bool)
    ensures SearchLatest(s, bounded).None? <==> !LatestOccurs(s, bounded)
    ensures SearchLatest(s, bounded).Some? ==>
              LatestCaptures(s, SearchLatest(s, bounded).value.0, SearchLatest(s, bounded).value.1, bounded)
  {
    if bounded {
      LatestSearchWith(s, LatestWordAt, bounded);
    } else {
      LatestSearchWith(s, LatestAnyAt, bounded);
    }
  }

  lemma LatestSearchWith(s: string, at: (string, nat) -> Option<(string, string)>, bounded: bool)
    requires forall i: nat :: at(s, i) == LatestAt(s, i, bounded)
    ensures Search(s, at).None? <==> !LatestOccurs(s, bounded)
    ensures Search(s, at).Some? ==> LatestCaptures(s, Search(s, at).value.0, Search(s, at).value.1, bounded)
  {
    LatestShapesMatch(s, bounded);
    var r := Search(s, at);
    if r.Some? {
      var i: nat :| i <= |s| && at(s, i) == r && forall j: nat :: j < i ==> at(s, j).None?;
      LatestLeftmost(s, i, bounded);
    }
  }

  lemma LatestShapesMatch(s: string, bounded: bool)
    ensures forall i: nat, a: nat, b: nat, c: nat, d: nat, e: nat ::
              LatestShape(s, i, a, b, c, d, e, bounded) ==> i <= |s| && LatestAt(s, i, bounded).Some?
  {
    forall i: nat, a: nat, b: nat, c: nat, d: nat, e: nat | LatestShape(s, i, a, b, c, d, e, bounded)
      ensures i <= |s| && LatestAt(s, i, bounded).Some?
    {
      LatestExact(s, i, a, b, c, d, e, bounded);
    }
  }

  lemma LatestLeftmost(s: string, i: nat, bounded: bool)
    requires LatestAt(s, i, bounded).Some?
    requires forall j: nat :: j < i ==> LatestAt(s, j, bounded).None?
    ensures LatestCaptures(s, LatestAt(s, i, bounded).value.0, LatestAt(s, i, bounded).value.1, bounded)
  {
    LatestShapesMatch(s, bounded);
    LatestFound(s, i, bounded);
    var a: nat, b: nat, c: nat, d: nat, e: nat :|
      LatestShape(s, i, a, b, c, d, e, bounded) && LatestAt(s, i, bounded).value == (s[a..b], s[d..e]);
    assert FirstLatest(s, i, a, b, c, d, e, bounded);
  }

  // ---------------------------------------------------------------- \bICD\s*10\b.*\b([A-Z]\d{2})\b

  ghost predicate IcdWordOccurs(s: string) {
    exists i: nat, m: nat, k: nat :: IcdWordShape(s, i, m, k)
  }

  ghost predicate FirstIcdWord(s: string, i: nat, m: nat, k: nat) {
    LastIcdWordShape(s, i, m, k) && forall i': nat, m': nat, k': nat :: i' < i ==> !IcdWordShape(s, i', m', k')
  }

  /** `x` is the code word that the leftmost occurrence captures. */
  ghost predicate IcdWordCaptures(s: string, x: string) {
    exists i: nat, m: nat, k: nat :: FirstIcdWord(s, i, m, k) && x == s[k..k + 3]
  }

  lemma IcdWordSearch(s: string)
    ensures Search(s, IcdWordAt).None? <==> !IcdWordOccurs(s)
    ensures Search(s, IcdWordAt).Some? ==> IcdWordCaptures(s, Search(s, IcdWordAt).value)
  {
    forall i: nat, m: nat, k: nat | IcdWordShape(s, i, m, k)
      ensures i <= |s| && IcdWordAt(s, i).Some?
    {
      IcdWordExists(s, i, m, k);
    }
    var r := Search(s, IcdWordAt);
    if r.Some? {
      var i: nat :| i <= |s| && IcdWordAt(s, i) == r && forall j: nat :: j < i ==> IcdWordAt(s, j).None?;
      IcdWordFound(s, i);
      var m: nat, k: nat :| LastIcdWordShape(s, i, m, k) && r.value == s[k..k + 3];
      assert FirstIcdWord(s, i, m, k);
    }
  }

  // ---------------------------------------------------------------- patients\s+with\s+icd10\s+([A-Z0-9.]+)

  ghost predicate IcdPhraseOccurs(s: string) {
    exists i: nat, a: nat, b: nat, c: nat, e: nat :: IcdPhraseShape(s, i, a, b, c, e)
  }

  ghost predicate FirstIcdPhrase(s: string, i: nat, a: nat, b: nat, c: nat, e: nat) {
    && IcdPhraseShape(s, i, a, b, c, e)
    && forall i': nat, a': nat, b': nat, c': nat, e': nat :: i' < i ==> !IcdPhraseShape(s, i', a', b', c', e')
  }

  /** `x` is what `([A-Z0-9.]+)` captures in the leftmost occurrence. */
  ghost predicate IcdPhraseCaptures(s: string, x: string) {
    exists i: nat, a: nat, b: nat, c: nat, e: nat :: FirstIcdPhrase(s, i, a, b, c, e) && x == s[c..e]
  }

  lemma IcdPhraseSearch(s: string)
    ensures Search(s, IcdPhraseAt).None? <==> !IcdPhraseOccurs(s)
    ensures Search(s, IcdPhraseAt).Some? ==> IcdPhraseCaptures(s, Search(s, IcdPhraseAt).value)
  {
    forall i: nat, a: nat, b: nat, c: nat, e: nat | IcdPhraseShape(s, i, a, b, c, e)
      ensures i <= |s| && IcdPhraseAt(s, i).Some?
    {
      IcdPhraseExact(s, i, a, b, c, e);
    }
    var r := Search(s, IcdPhraseAt);
    if r.Some? {
      var i: nat :| i <= |s| && IcdPhraseAt(s, i) == r && forall j: nat :: j < i ==> IcdPhraseAt(s, j).None?;
      IcdPhraseFound(s, i);
      var a: nat, b: nat, c: nat, e: nat :| IcdPhraseShape(s, i, a, b, c, e) && r.value == s[c..e];
      assert FirstIcdPhrase(s, i, a, b, c, e);
    }
  }

  // ---------------------------------------------------------------- find\s+patient\s+(.+)$

  ghost predicate FindOccurs(s: string, bounded: bool) {
    exists i: nat, a: nat, p: nat, e: nat :: FindShape(s, i, a, p, e, bounded)
  }

  ghost predicate FirstFind(s: string, i: nat, a: nat, p: nat, e: nat, bounded: bool) {
    && GreedyFindShape(s, i, a, p, e, bounded)
    && forall i': nat, a': nat, p': nat, e': nat :: i' < i ==> !FindShape(s, i', a', p', e', bounded)
  }

  /** The search of `agent.py` (after `\b`) or of `agent_core.py` (anywhere). */
  function SearchFind(s: string, bounded: bool): Option<string> {
    if bounded then Search(s, FindWordAt) else Search(s, FindAnyAt)
  }

  /** `x` is what `(.+)` captures in the leftmost occurrence. */
  ghost predicate FindCaptures(s: string, x: string, bounded: bool) {
    exists i: nat, a: nat, p: nat, e: nat :: FirstFind(s, i, a, p, e, bounded) && x == s[p..e]
  }

  lemma FindSearch(s: string, bounded: bool)
    ensures SearchFind(s, bounded).None? <==> !FindOccurs(s, bounded)
    ensures SearchFind(s, bounded).Some? ==> FindCaptures(s, SearchFind(s, bounded).value, bounded)
  {
    if bounded {
      FindSearchWith(s, FindWordAt, bounded);
    } else {
      FindSearchWith(s, FindAnyAt, bounded);
    }
  }

  lemma FindSearchWith(s: string, at: (string, nat) -> Option<string>, bounded: bool)
    requires forall i: nat :: at(s, i) == FindAt(s, i, bounded)
    ensures Search(s, at).None? <==> !FindOccurs(s, bounded)
    ensures Search(s, at).Some? ==> FindCaptures(s, Search(s, at).value, bounded)
  {
    forall i: nat, a: nat, p: nat, e: nat | FindShape(s, i, a, p, e, bounded)
      ensures i <= |s| && at(s, i).Some?
    {
      FindExists(s, i, a, p, e, bounded);
    }
    var r := Search(s, at);
    if r.Some? {
      var i: nat :| i <= |s| && at(s, i) == r && forall j: nat :: j < i ==> at(s, j).None?;
      FindFound(s, i, bounded);
      var a: nat, p: nat, e: nat :| GreedyFindShape(s, i, a, p, e, bounded) && r.value == s[p..e];
      assert FirstFind(s, i, a, p, e, bounded);
    }
  }

  // ---------------------------------------------------------------- what the captures look like

  lemma SummaryCaptureIsId(s: string, x: string)
    requires SummaryCaptures(s, x)
    ensures IsPatientId(UpperStr(x))
  {
    var i: nat, a: nat, e: nat :| FirstSummary(s, i, a, e) && x == s[a..e];
    UpperPatientId(s, a, e);
  }

  lemma LatestCapturesAreArgs(s: string, test: string, pid: string, bounded: bool)
    requires LatestCaptures(s, test, pid, bounded)
    ensures IsPatientId(UpperStr(pid)) && IsUpperToken(UpperStr(test), IsAlnum)
  {
    var i: nat, a: nat, b: nat, c: nat, d: nat, e: nat :|
      FirstLatest(s, i, a, b, c, d, e, bounded) && test == s[a..b] && pid == s[d..e];
    LatestArgsWellFormed(s, i, a, b, c, d, e, bounded);
  }

  lemma IcdWordCaptureIsCode(s: string, x: string)
    requires IcdWordCaptures(s, x)
    ensures IsIcdCode(UpperStr(x))
  {
    var i: nat, m: nat, k: nat :| FirstIcdWord(s, i, m, k) && x == s[k..k + 3];
    UpperCodeWord(s, k);
  }

  lemma IcdPhraseCaptureIsToken(s: string, x: string)
    requires IcdPhraseCaptures(s, x)
    ensures IsUpperToken(UpperStr(x), IsCodeChar)
  {
    var i: nat, a: nat, b: nat, c: nat, e: nat :| FirstIcdPhrase(s, i, a, b, c, e) && x == s[c..e];
    UpperToken(s, c, e, IsCodeChar);
  }

  lemma FindCaptureIsNotBlank(s: string, x: string, bounded: bool)
    requires IsTrimmed(s) && FindCaptures(s, x, bounded)
    ensures Trim(x) != ""
  {
    var i: nat, a: nat, p: nat, e: nat :| FirstFind(s, i, a, p, e, bounded) && x == s[p..e];
    RestIsNotBlank(s, p, e);
  }

  // ---------------------------------------------------------------- each search captures one thing

  lemma SummaryCaptureUnique(s: string, x: string, y: string)
    requires SummaryCaptures(s, x) && SummaryCaptures(s, y)
    ensures x == y
  {
    var i: nat, a: nat, e: nat :| FirstSummary(s, i, a, e) && x == s[a..e];
    var i': nat, a': nat, e': nat :| FirstSummary(s, i', a', e') && y == s[a'..e'];
    assert i == i';
    SummaryExact(s, i, a, e);
    SummaryExact(s, i, a', e');
  }

  lemma LatestCaptureUnique(s: string, t: string, p: string, t': string, p': string, bounded: bool)
    requires LatestCaptures(s, t, p, bounded) && LatestCaptures(s, t', p', bounded)
    ensures t == t' && p == p'
  {
    var i: nat, a: nat, b: nat, c: nat, d: nat, e: nat :|
      FirstLatest(s, i, a, b, c, d, e, bounded) && t == s[a..b] && p == s[d..e];
    LatestCaptureIsAt(s, i, a, b, c, d, e, t', p', bounded);
  }

  lemma LatestCaptureIsAt(s: string, i: nat, a: nat, b: nat, c: nat, d: nat, e: nat, t: string, p: string, bounded: bool)
    requires FirstLatest(s, i, a, b, c, d, e, bounded) && LatestCaptures(s, t, p, bounded)
    ensures t == s[a..b] && p == s[d..e]
  {
    var i': nat, a': nat, b': nat, c': nat, d': nat, e': nat :|
      FirstLatest(s, i', a', b', c', d', e', bounded) && t == s[a'..b'] && p == s[d'..e'];
    assert !(i' < i) && !(i < i');
    LatestExact(s, i, a, b, c, d, e, bounded);
    LatestExact(s, i, a', b', c', d', e', bounded);
  }

  lemma IcdWordCaptureUnique(s: string, x: string, y: string)
    requires IcdWordCaptures(s, x) && IcdWordCaptures(s, y)
    ensures x == y
  {
    var i: nat, m: nat, k: nat :| FirstIcdWord(s, i, m, k) && x == s[k..k + 3];
    var i': nat, m': nat, k': nat :| FirstIcdWord(s, i', m', k') && y == s[k'..k' + 3];
    assert i == i';
    IcdWordExact(s, i, m, k);
    IcdWordExact(s, i, m', k');
  }

  lemma IcdPhraseCaptureUnique(s: string, x: string, y: string)
    requires IcdPhraseCaptures(s, x) && IcdPhraseCaptures(s, y)
    ensures x == y
  {
    var i: nat, a: nat, b: nat, c: nat, e: nat :| FirstIcdPhrase(s, i, a, b, c, e) && x == s[c..e];
    var i': nat, a': nat, b': nat, c': nat, e': nat :| FirstIcdPhrase(s, i', a', b', c', e') && y == s[c'..e'];
    assert i == i';
    IcdPhraseExact(s, i, a, b, c, e);
    IcdPhraseExact(s, i, a', b', c', e');
  }

  lemma FindCaptureUnique(s: string, x: string, y: string, bounded: bool)
    requires FindCaptures(s, x, bounded) && FindCaptures(s, y, bounded)
    ensures x == y
  {
    var i: nat, a: nat, p: nat, e: nat :| FirstFind(s, i, a, p, e, bounded) && x == s[p..e];
    var i': nat, a': nat, p': nat, e': nat :| FirstFind(s, i', a', p', e', bounded) && y == s[p'..e'];
    assert i == i';
    FindExact(s, i, a, p, e, bounded);
    FindExact(s, i, a', p', e', bounded);
  }
}
