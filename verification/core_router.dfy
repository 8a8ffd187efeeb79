/**
 * `route_to_tool` of `agent_core.py`: the line is stripped, then six rules are tried in order.
 * The first two must match the whole line; the other four are searches, without the word
 * boundaries of `agent.py`, and diagnosis codes follow the phrase `patients with icd10`.
 */
module CoreRouter {

  import opened Wrappers
  import opened Text
  import opened Scan
  import opened Patterns
  import opened Searches
  import opened Tables
  import opened Calls

  /** What each rule finds in the stripped line. */
  datatype Matches = Matches(
    listTables: bool,
    showSchema: bool,
    icd: Option<string>,
    summary: Option<string>,
    latest: Option<(string, string)>,
    find: Option<string>)

  function MatchAll(s: string): Matches {
    Matches(
      IsTwoWordLine(s, "list", "tables"),
      IsTwoWordLine(s, "show", "schema"),
      Search(s, IcdPhraseAt),
      Search(s, SummaryAt),
      SearchLatest(s, false),
      SearchFind(s, false))
  }

  /** The position of the first rule with a match, or 6 when no rule has one. */
  function Chosen(m: Matches): nat {
    if m.listTables then 0
    else if m.showSchema then 1
    else if m.icd.Some? then 2
    else if m.summary.Some? then 3
    else if m.latest.Some? then 4
    else if m.find.Some? then 5
    else 6
  }

  /** The first rule with a match decides; its captures become the arguments. */
  function Pick(m: Matches): Option<Call> {
    match Chosen(m)
    case 0 => Some(ListTablesCall)
    case 1 => Some(ShowSchemaCall)
    case 2 => Some(PatientsByIcd10Call(UpperStr(m.icd.value)))
    case 3 => Some(PatientSummaryCall(UpperStr(m.summary.value)))
    case 4 => Some(LatestLabCall(UpperStr(m.latest.value.1), UpperStr(m.latest.value.0)))
    case 5 => Some(FindPatientCall(Trim(m.find.value)))
    case _ => None
  }

  function Route(text: string): Option<Call> {
    Pick(MatchAll(Trim(text)))
  }

  /** The pair `route_to_tool` returns: a tool name and its arguments, or `(None, {})`. */
  function RouteToTool(text: string): (Option<string>, map<string, string>) {
    match Route(text)
    case Some(c) => (Some(ToolName(c)), Args(c))
    case None => (None, map[])
  }

  /** The position of an operation's rule in the order the rules are tried. */
  function Rank(c: Call): nat {
    match c
    case ListTablesCall => 0
    case ShowSchemaCall => 1
    case PatientsByIcd10Call(_) => 2
    case PatientSummaryCall(_) => 3
    case LatestLabCall(_, _) => 4
    case FindPatientCall(_) => 5
  }

  /**
   * The position of the first rule whose pattern occurs in the stripped line `s`, or 6 when none
   * does: the declarative reading of the rule list.
   */
  ghost function FirstFiring(s: string): nat {
    if TwoWordShape(s, "list", "tables") then 0
    else if TwoWordShape(s, "show", "schema") then 1
    else if IcdPhraseOccurs(s) then 2
    else if SummaryOccurs(s) then 3
    else if LatestOccurs(s, false) then 4
    else if FindOccurs(s, false) then 5
    else 6
  }

  /** The operation picked carries the rank of the rule that chose it. */
  lemma PickHasChosenRank(m: Matches)
    ensures Pick(m).None? <==> Chosen(m) == 6
    ensures Pick(m).Some? ==> Rank(Pick(m).value) == Chosen(m)
  {
  }

  /** The arguments of a picked operation come from its own rule's captures. */
  lemma PickedArgs(m: Matches)
    ensures Pick(m).Some? && Pick(m).value.PatientSummaryCall? ==>
              m.summary.Some? && Pick(m).value.patientId == UpperStr(m.summary.value)
    ensures Pick(m).Some? && Pick(m).value.LatestLabCall? ==>
              m.latest.Some? && Pick(m).value.patientId == UpperStr(m.latest.value.1)
              && Pick(m).value.test == UpperStr(m.latest.value.0)
    ensures Pick(m).Some? && Pick(m).value.PatientsByIcd10Call? ==>
              m.icd.Some? && Pick(m).value.icd10 == UpperStr(m.icd.value)
    ensures Pick(m).Some? && Pick(m).value.FindPatientCall? ==>
              m.find.Some? && Pick(m).value.nameContains == Trim(m.find.value)
  {
  }

  lemma ChosenIsFirstFiring(s: string, m: Matches)
    requires m.listTables <==> TwoWordShape(s, "list", "tables")
    requires m.showSchema <==> TwoWordShape(s, "show", "schema")
    requires m.icd.Some? <==> IcdPhraseOccurs(s)
    requires m.summary.Some? <==> SummaryOccurs(s)
    requires m.latest.Some? <==> LatestOccurs(s, false)
    requires m.find.Some? <==> FindOccurs(s, false)
    ensures Chosen(m) == FirstFiring(s)
  {
  }

  /** The router gives up exactly when no rule fires, and otherwise takes the first rule that fires. */
  lemma RouteTakesFirstRule(text: string)
    ensures Route(text).None? <==> FirstFiring(Trim(text)) == 6
    ensures Route(text).Some? ==> Rank(Route(text).value) == FirstFiring(Trim(text))
  {
    var s := Trim(text);
    TwoWordSpec(s, "list", "tables");
    TwoWordSpec(s, "show", "schema");
    IcdPhraseSearch(s);
    SummarySearch(s);
    LatestSearch(s, false);
    FindSearch(s, false);
    ChosenIsFirstFiring(s, MatchAll(s));
    PickHasChosenRank(MatchAll(s));
  }

  /** A summary request carries the leftmost `summary P<digits>` id, upper-cased. */
  lemma RouteSummaryId(text: string, pid: string)
    requires Route(text) == Some(PatientSummaryCall(pid))
    ensures exists x :: SummaryCaptures(Trim(text), x) && pid == UpperStr(x)
    ensures IsPatientId(pid)
  {
    var s := Trim(text);
    var m := MatchAll(s);
    PickedArgs(m);
    SummarySearch(s);
    SummaryCaptureIsId(s, m.summary.value);
  }

  /** A lab request carries the test token and the id of the leftmost `latest ... for P<digits>`. */
  lemma RouteLatestArgs(text: string, pid: string, test: string)
    requires Route(text) == Some(LatestLabCall(pid, test))
    ensures exists t, p :: LatestCaptures(Trim(text), t, p, false) && test == UpperStr(t) && pid == UpperStr(p)
    ensures IsPatientId(pid) && IsUpperToken(test, IsAlnum)
  {
    var s := Trim(text);
    var m := MatchAll(s);
    PickedArgs(m);
    LatestSearch(s, false);
    LatestCapturesAreArgs(s, m.latest.value.0, m.latest.value.1, false);
  }

  /** A diagnosis request carries the token after the leftmost `patients with icd10`, upper-cased. */
  lemma RouteIcdCode(text: string, code: string)
    requires Route(text) == Some(PatientsByIcd10Call(code))
    ensures exists x :: IcdPhraseCaptures(Trim(text), x) && code == UpperStr(x)
    ensures IsUpperToken(code, IsCodeChar)
  {
    var s := Trim(text);
    var m := MatchAll(s);
    PickedArgs(m);
    IcdPhraseSearch(s);
    IcdPhraseCaptureIsToken(s, m.icd.value);
  }

  /** A name search carries the rest of the line after `find patient`, stripped, never empty. */
  lemma RouteFindName(text: string, q: string)
    requires Route(text) == Some(FindPatientCall(q))
    ensures exists x :: FindCaptures(Trim(text), x, false) && q == Trim(x)
    ensures q != "" && IsTrimmed(q)
  {
    var s := Trim(text);
    var m := MatchAll(s);
    PickedArgs(m);
    FindSearch(s, false);
    FindCaptureIsNotBlank(s, m.find.value, false);
  }

  /** Whatever the router emits, `run_tool` accepts: it runs the routed operation, never a `KeyError`. */
  lemma RoutedToolRuns(db: Database, text: string)
    requires RouteToTool(text).0.Some?
    ensures RunTool(db, RouteToTool(text).0.value, RouteToTool(text).1) == Done(Execute(db, Route(text).value))
  {
    RunToolOnCall(db, Route(text).value);
  }

  /** When no rule fires the router returns `(None, {})`. */
  lemma NoRouteIsNoneEmpty(text: string)
    requires FirstFiring(Trim(text)) == 6
    ensures RouteToTool(text) == (None, map[])
  {
    RouteTakesFirstRule(text);
  }
}
