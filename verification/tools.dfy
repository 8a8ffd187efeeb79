/**
 * The six read-only queries over the tables. Each returns a structured result: a fixed message,
 * the selected rows, or a report; laying the rows out as aligned text is left to rendering.
 */
module Tools {

  import opened Wrappers
  import opened Text
  import opened Frame
  import opened Tables

  /** A section of the patient summary: the literal "None" when it has no rows. */
  datatype Section<T> = NoneShown | Shown(rows: seq<T>)

  datatype ToolOutput =
    | Message(text: string)
    | PatientRows(rows: seq<Patient>)
    | LatestLabReport(patientId: string, lab: Lab)
    | SummaryReport(patient: Patient, encounters: Section<Encounter>, labs: Section<Lab>)

  const TablesLabel: string := "Available tables: "

  /** How many rows of each kind the summary shows at most. */
  const SummaryRows: nat := 5

  /** `rows` holds each row of `pats` that `keep` accepts, as often as `pats` does, and nothing else. */
  ghost predicate IsSelection(rows: seq<Patient>, pats: seq<Patient>, keep: Patient -> bool) {
    forall p :: multiset(rows)[p] == if keep(p) then multiset(pats)[p] else 0
  }

  // ---------------------------------------------------------------- list_tables

  lemma LexLeIsTotalPreorder()
    ensures TotalPreorder(LexLe)
  {
    forall a, b
      ensures LexLe(a, b) || LexLe(b, a)
    {
      LexLeTotal(a, b);
    }
    forall a, b, c | LexLe(a, b) && LexLe(b, c)
      ensures LexLe(a, c)
    {
      LexLeTransitive(a, b, c);
    }
  }

  /** The label followed by the table names in ascending order, comma separated. */
  function ListTables(catalog: seq<TableInfo>): (r: string)
    ensures exists names: seq<string> ::
              && r == TablesLabel + Join(names, ", ")
              && SortedBy(names, LexLe)
              && multiset(names) == multiset(TableNames(catalog))
  {
    LexLeIsTotalPreorder();
    var names := Sort(TableNames(catalog), LexLe);
    TablesLabel + Join(names, ", ")
  }

  /** Table names are dictionary keys, so each is listed exactly once. */
  lemma ListTablesNamesOnce(catalog: seq<TableInfo>)
    requires Distinct(TableNames(catalog))
    ensures exists names: seq<string> ::
              && ListTables(catalog) == TablesLabel + Join(names, ", ")
              && SortedBy(names, LexLe)
              && (forall n :: n in names ==> n in TableNames(catalog))
              && (forall n :: n in TableNames(catalog) ==> multiset(names)[n] == 1)
  {
    var names: seq<string> :| && ListTables(catalog) == TablesLabel + Join(names, ", ")
                              && SortedBy(names, LexLe)
                              && multiset(names) == multiset(TableNames(catalog));
    forall n | n in TableNames(catalog)
      ensures multiset(names)[n] == 1
    {
      DistinctCount(TableNames(catalog), n);
    }
    assert forall n :: n in names ==> n in multiset(TableNames(catalog));
  }

  lemma LexLeIsAntisymmetric()
    ensures Antisymmetric(LexLe)
  {
    forall a, b | LexLe(a, b) && LexLe(b, a)
      ensures a == b
    {
      LexLeAntisymmetric(a, b);
    }
  }

  /**
   * Code-point order on strings has no ties between different names, so the listing is fully
   * determined: it is the label followed by THE ascending arrangement of the names.
   */
  lemma ListTablesIsSortedNames(catalog: seq<TableInfo>, names: seq<string>)
    requires SortedBy(names, LexLe) && multiset(names) == multiset(TableNames(catalog))
    ensures ListTables(catalog) == TablesLabel + Join(names, ", ")
  {
    var listed: seq<string> :| && ListTables(catalog) == TablesLabel + Join(listed, ", ")
                               && SortedBy(listed, LexLe)
                               && multiset(listed) == multiset(TableNames(catalog));
    LexLeIsAntisymmetric();
    SortedUnique(listed, names, LexLe);
  }

  // ---------------------------------------------------------------- show_schema

  function SchemaLine(t: TableInfo): string {
    t.name + ": " + Join(t.columns, ", ")
  }

  function SchemaLines(catalog: seq<TableInfo>): seq<string> {
    seq(|catalog|, i requires 0 <= i < |catalog| => SchemaLine(catalog[i]))
  }

  /** One line per table in the mapping's order; empty only for an empty mapping. */
  function ShowSchema(catalog: seq<TableInfo>): (r: string)
    ensures r == "" <==> |catalog| == 0
  {
    var lines := SchemaLines(catalog);
    if |lines| == 0 then ""
    else
      JoinStartsWithFirst(lines, "\n");
      Join(lines, "\n")
  }

  predicate NoNewlines(catalog: seq<TableInfo>) {
    forall i :: 0 <= i < |catalog| ==>
      && '\n' !in catalog[i].name
      && forall k :: 0 <= k < |catalog[i].columns| ==> '\n' !in catalog[i].columns[k]
  }

  /** Splitting the schema text at line feeds gives back exactly one line per table, in order. */
  lemma ShowSchemaOneLinePerTable(catalog: seq<TableInfo>)
    requires |catalog| > 0 && NoNewlines(catalog)
    ensures |Split(ShowSchema(catalog), '\n')| == |catalog|
    ensures forall i :: 0 <= i < |catalog| ==>
              Split(ShowSchema(catalog), '\n')[i] == catalog[i].name + ": " + Join(catalog[i].columns, ", ")
  {
    var lines := SchemaLines(catalog);
    forall i | 0 <= i < |lines|
      ensures '\n' !in lines[i]
    {
      JoinAvoids(catalog[i].columns, ", ", '\n');
    }
    SplitJoin(lines, '\n');
  }

  // ---------------------------------------------------------------- find_patient

  /** `name.str.contains(q, case=False, na=False)` taken literally: a missing name never matches. */
  predicate NameMatches(q: string, p: Patient) {
    p.name.Some? && HasSubstringCi(p.name.value, q)
  }

  function MatchingPatients(pats: seq<Patient>, q: string): seq<Patient> {
    Filter(pats, (p: Patient) => NameMatches(q, p))
  }

  /** The patients whose name contains `q` ignoring case, or a not-found message. */
  function FindPatient(pats: seq<Patient>, q: string): (r: ToolOutput)
    ensures r.Message? <==> forall p :: p in pats ==> p.name.None? || !ContainsCi(p.name.value, q)
    ensures r.Message? ==> r.text == "No patients found matching '" + q + "'."
    ensures !r.Message? ==> r.PatientRows?
    ensures r.PatientRows? ==> IsSelection(r.rows, pats, (p: Patient) => p.name.Some? && ContainsCi(p.name.value, q))
  {
    var rows := MatchingPatients(pats, q);
    var keep := (p: Patient) => p.name.Some? && ContainsCi(p.name.value, q);
    assert IsSelection(rows, pats, keep);
    EmptySelection(rows, pats, keep);
    if |rows| == 0 then Message("No patients found matching '" + q + "'.")
    else PatientRows(rows)
  }

  /** The rows a query result lists; a message lists none. */
  function Listed(r: ToolOutput): seq<Patient> {
    if r.PatientRows? then r.rows else []
  }

  /**
   * The matches keep the table's row order: the rows found in two stacked tables are the rows
   * found in the first followed by those found in the second.
   */
  lemma FindPatientKeepsOrder(a: seq<Patient>, b: seq<Patient>, q: string)
    ensures Listed(FindPatient(a + b, q)) == Listed(FindPatient(a, q)) + Listed(FindPatient(b, q))
  {
    FilterConcat(a, b, (p: Patient) => NameMatches(q, p));
  }

  /** Two queries that differ only in letter case find the same patients, in the same order. */
  lemma FindPatientIgnoresCase(pats: seq<Patient>, q1: string, q2: string)
    requires |q1| == |q2|
    requires forall k :: 0 <= k < |q1| ==> Lower(q1[k]) == Lower(q2[k])
    ensures Listed(FindPatient(pats, q1)) == Listed(FindPatient(pats, q2))
  {
    MatchingIgnoresCase(pats, q1, q2);
  }

  lemma {:induction false} MatchingIgnoresCase(pats: seq<Patient>, q1: string, q2: string)
    requires |q1| == |q2|
    requires forall k :: 0 <= k < |q1| ==> Lower(q1[k]) == Lower(q2[k])
    ensures MatchingPatients(pats, q1) == MatchingPatients(pats, q2)
    decreases |pats|
  {
    if |pats| > 0 {
      var p := pats[0];
      if p.name.Some? {
        forall k: nat
          ensures CiAt(p.name.value, k, q1) <==> CiAt(p.name.value, k, q2)
        {
          CiAtIgnoresCase(p.name.value, k, q1, q2);
        }
      }
      assert NameMatches(q1, p) == NameMatches(q2, p);
      MatchingIgnoresCase(pats[1..], q1, q2);
    }
  }

  // ---------------------------------------------------------------- patients_by_icd10

  function Repeat<T>(x: T, n: nat): (r: seq<T>)
    ensures multiset(r) == multiset{}[x := n]
  {
    if n == 0 then [] else [x] + Repeat(x, n - 1)
  }

  /** `pats.merge(keys, on="patient_id", how="inner")`: every patient row once per equal key. */
  function InnerJoin(pats: seq<Patient>, keys: seq<string>): (r: seq<Patient>)
    ensures forall p :: multiset(r)[p] == multiset(pats)[p] * multiset(keys)[p.patientId]
  {
    if |pats| == 0 then []
    else
      var rest := InnerJoin(pats[1..], keys);
      var here := Repeat(pats[0], multiset(keys)[pats[0].patientId]);
      JoinStep(pats, keys, here, rest);
      here + rest
  }

  /** The merge keeps the patients' row order: it distributes over stacked patient tables. */
  lemma {:induction false} InnerJoinConcat(a: seq<Patient>, b: seq<Patient>, keys: seq<string>)
    ensures InnerJoin(a + b, keys) == InnerJoin(a, keys) + InnerJoin(b, keys)
    decreases |a|
  {
    if |a| > 0 {
      assert (a + b)[0] == a[0];
      assert (a + b)[1..] == a[1..] + b;
      InnerJoinConcat(a[1..], b, keys);
    } else {
      assert a + b == b;
    }
  }

  lemma JoinStep(pats: seq<Patient>, keys: seq<string>, here: seq<Patient>, rest: seq<Patient>)
    requires |pats| > 0
    requires multiset(here) == multiset{}[pats[0] := multiset(keys)[pats[0].patientId]]
    requires forall p :: multiset(rest)[p] == multiset(pats[1..])[p] * multiset(keys)[p.patientId]
    ensures forall p :: multiset(here + rest)[p] == multiset(pats)[p] * multiset(keys)[p.patientId]
  {
    assert pats == [pats[0]] + pats[1..];
    forall p
      ensures multiset(here + rest)[p] == multiset(pats)[p] * multiset(keys)[p.patientId]
    {
      Distribute(multiset([pats[0]])[p], multiset(pats[1..])[p], multiset(keys)[p.patientId]);
    }
  }

  lemma Distribute(a: nat, b: nat, c: nat)
    ensures (a + b) * c == a * c + b * c
  {
  }

  function PatientIdsOf(encs: seq<Encounter>): (ids: seq<string>)
    ensures forall id :: id in ids <==> exists e :: e in encs && e.patientId == id
  {
    var ids := seq(|encs|, i requires 0 <= i < |encs| => encs[i].patientId);
    assert forall id :: id in ids ==> exists e :: e in encs && e.patientId == id by {
      forall id | id in ids
        ensures exists e :: e in encs && e.patientId == id
      {
        var i :| 0 <= i < |ids| && ids[i] == id;
        assert encs[i] in encs;
      }
    }
    assert forall e :: e in encs ==> e.patientId in ids by {
      forall e | e in encs
        ensures e.patientId in ids
      {
        var i :| 0 <= i < |encs| && encs[i] == e;
        assert ids[i] == e.patientId;
      }
    }
    ids
  }

  /** Some encounter of patient `id` is coded exactly `code`. */
  ghost predicate HasDiagnosis(encs: seq<Encounter>, id: string, code: string) {
    exists e :: e in encs && e.patientId == id && e.icd10 == code
  }

  /** `enc[enc["icd10"] == code][["patient_id"]].drop_duplicates()` */
  function DiagnosedIds(encs: seq<Encounter>, code: string): (ids: seq<string>)
    ensures Distinct(ids)
    ensures forall id :: id in ids <==> HasDiagnosis(encs, id, code)
  {
    var hits := Filter(encs, (e: Encounter) => e.icd10 == code);
    DropDuplicates(PatientIdsOf(hits))
  }

  lemma DistinctMembership<T>(s: seq<T>, x: T)
    requires Distinct(s)
    ensures multiset(s)[x] == if x in s then 1 else 0
  {
    DistinctCount(s, x);
  }

  /** Joining against de-duplicated ids keeps each accepted patient row once. */
  lemma JoinOnDistinctIds(rows: seq<Patient>, pats: seq<Patient>, ids: seq<string>, keep: Patient -> bool)
    requires forall p :: multiset(rows)[p] == multiset(pats)[p] * multiset(ids)[p.patientId]
    requires Distinct(ids)
    requires forall p: Patient :: p.patientId in ids <==> keep(p)
    ensures IsSelection(rows, pats, keep)
  {
    forall p
      ensures multiset(rows)[p] == if keep(p) then multiset(pats)[p] else 0
    {
      DistinctMembership(ids, p.patientId);
    }
  }

  /** A selection is empty exactly when no row of the table is accepted. */
  lemma EmptySelection(rows: seq<Patient>, pats: seq<Patient>, keep: Patient -> bool)
    requires IsSelection(rows, pats, keep)
    ensures |rows| == 0 <==> forall p :: p in pats ==> !keep(p)
  {
    if |rows| > 0 {
      assert rows[0] in multiset(rows);
    }
  }

  /** The patients with an encounter coded `code`, each patient row once, or a not-found message. */
  function PatientsByIcd10(db: Database, code: string): (r: ToolOutput)
    ensures r.Message? <==> forall p :: p in db.patients ==> !HasDiagnosis(db.encounters, p.patientId, code)
    ensures r.Message? ==> r.text == "No patients found with ICD-10 '" + code + "'."
    ensures !r.Message? ==> r.PatientRows?
    ensures r.PatientRows? ==> IsSelection(r.rows, db.patients, (p: Patient) => HasDiagnosis(db.encounters, p.patientId, code))
  {
    var ids := DiagnosedIds(db.encounters, code);
    var rows := InnerJoin(db.patients, ids);
    JoinOnDistinctIds(rows, db.patients, ids, (p: Patient) => HasDiagnosis(db.encounters, p.patientId, code));
    EmptySelection(rows, db.patients, (p: Patient) => HasDiagnosis(db.encounters, p.patientId, code));
    if |rows| == 0 then Message("No patients found with ICD-10 '" + code + "'.")
    else PatientRows(rows)
  }

  /**
   * The result keeps the patients' row order: the patients found in two stacked patient tables
   * are those found in the first followed by those found in the second.
   */
  lemma PatientsByIcd10KeepsOrder(a: seq<Patient>, b: seq<Patient>, encs: seq<Encounter>, labs: seq<Lab>, code: string)
    ensures Listed(PatientsByIcd10(Database(a + b, encs, labs), code))
            == Listed(PatientsByIcd10(Database(a, encs, labs), code))
               + Listed(PatientsByIcd10(Database(b, encs, labs), code))
  {
    InnerJoinConcat(a, b, DiagnosedIds(encs, code));
  }

  lemma SameRowTwice<T>(s: seq<T>, i: nat, j: nat)
    requires i < j < |s| && s[i] == s[j]
    ensures multiset(s)[s[i]] >= 2
  {
    assert s == s[..j] + s[j..];
    assert s[i] in s[..j];
    assert s[j] in s[j..];
  }

  /** Selecting rows of a table keyed by `patient_id` never repeats a key. */
  lemma SelectionKeepsIdsUnique(rows: seq<Patient>, pats: seq<Patient>)
    requires UniquePatientIds(pats)
    requires multiset(rows) <= multiset(pats)
    ensures UniquePatientIds(rows)
  {
    forall i, j | 0 <= i < j < |rows|
      ensures rows[i].patientId != rows[j].patientId
    {
      if rows[i].patientId == rows[j].patientId {
        assert rows[i] in multiset(pats) && rows[j] in multiset(pats);
        var a :| 0 <= a < |pats| && pats[a] == rows[i];
        var b :| 0 <= b < |pats| && pats[b] == rows[j];
        assert a == b;
        SameRowTwice(rows, i, j);
        assert Distinct(pats);
        DistinctCount(pats, rows[i]);
        assert false;
      }
    }
  }

  /** With `patient_id` a key of `patients`, no id is reported twice, however many encounters match. */
  lemma PatientsByIcd10NoDuplicateIds(db: Database, code: string)
    requires UniquePatientIds(db.patients)
    ensures PatientsByIcd10(db, code).PatientRows? ==> UniquePatientIds(PatientsByIcd10(db, code).rows)
  {
    var r := PatientsByIcd10(db, code);
    if r.PatientRows? {
      assert multiset(r.rows) <= multiset(db.patients);
      SelectionKeepsIdsUnique(r.rows, db.patients);
    }
  }

  // ---------------------------------------------------------------- latest_lab

  /** `labs["patient_id"] == pid` and `labs["test"].str.upper() == test.upper()` */
  predicate LabMatches(pid: string, test: string, l: Lab) {
    l.patientId == pid && UpperStr(l.test) == UpperStr(test)
  }

  /** A matching lab row with the latest date, or a not-found message. Ties go to any one row. */
  function LatestLab(labs: seq<Lab>, pid: string, test: string): (r: ToolOutput)
    ensures r.Message? <==> forall l :: l in labs ==> !LabMatches(pid, test, l)
    ensures r.Message? ==> r.text == "No lab '" + test + "' found for " + pid + "."
    ensures !r.Message? ==> r.LatestLabReport?
    ensures r.LatestLabReport? ==>
              && r.patientId == pid
              && r.lab in labs
              && LabMatches(pid, test, r.lab)
              && forall l :: l in labs && LabMatches(pid, test, l) ==> l.date <= r.lab.date
  {
    var sub := Filter(labs, (l: Lab) => LabMatches(pid, test, l));
    if |sub| == 0 then Message("No lab '" + test + "' found for " + pid + ".")
    else
      assert sub[0] in sub;
      var top := MostRecent(sub, (l: Lab) => l.date, 1);
      assert top[0] in multiset(sub);
      assert forall l :: l in labs && LabMatches(pid, test, l) ==> l.date <= top[0].date by {
        forall l | l in labs && LabMatches(pid, test, l)
          ensures l.date <= top[0].date
        {
          assert l in multiset(sub);
          if l != top[0] {
            assert l in multiset(sub) - multiset(top);
          }
        }
      }
      LatestLabReport(pid, top[0])
  }

  // ---------------------------------------------------------------- patient_summary

  /** What the summary promises of one section, for the rows `owner` selects out of `rows`. */
  ghost predicate RecentSection<T(!new)>(sec: Section<T>, rows: seq<T>, owner: T -> bool, date: T -> int) {
    && (sec.NoneShown? <==> forall x :: x in rows ==> !owner(x))
    && (sec.Shown? ==>
          && 0 < |sec.rows| <= SummaryRows
          && multiset(sec.rows) <= multiset(rows)
          && (forall x :: x in sec.rows ==> owner(x))
          && (forall i, j :: 0 <= i < j < |sec.rows| ==> date(sec.rows[i]) >= date(sec.rows[j]))
          && (forall x :: x in multiset(rows) - multiset(sec.rows) && owner(x) ==>
                date(x) <= date(sec.rows[|sec.rows| - 1]))
          && (|sec.rows| < SummaryRows ==> forall x :: owner(x) ==> multiset(sec.rows)[x] == multiset(rows)[x]))
  }

  lemma SubMultisetOfSameSize<T>(a: multiset<T>, b: multiset<T>)
    requires a <= b && |a| == |b|
    ensures a == b
  {
    var d := b - a;
    assert b == a + d;
  }

  /** `mine` holds the rows of `rows` that `owner` accepts, with their multiplicities. */
  ghost predicate Owned<T(!new)>(mine: seq<T>, rows: seq<T>, owner: T -> bool) {
    forall x :: multiset(mine)[x] == if owner(x) then multiset(rows)[x] else 0
  }

  lemma ShownBelongToOwner<T(!new)>(rows: seq<T>, owner: T -> bool, mine: seq<T>, top: seq<T>)
    requires Owned(mine, rows, owner) && multiset(top) <= multiset(mine)
    ensures forall x :: x in top ==> owner(x)
  {
    forall x | x in top
      ensures owner(x)
    {
      assert x in multiset(top);
    }
  }

  lemma OmittedAreOlder<T(!new)>(rows: seq<T>, owner: T -> bool, date: T -> int, mine: seq<T>, top: seq<T>)
    requires Owned(mine, rows, owner)
    requires |top| > 0 && multiset(top) <= multiset(mine)
    requires forall x :: x in multiset(mine) - multiset(top) ==> date(x) <= date(top[|top| - 1])
    ensures forall x :: x in multiset(rows) - multiset(top) && owner(x) ==> date(x) <= date(top[|top| - 1])
  {
    forall x | x in multiset(rows) - multiset(top) && owner(x)
      ensures date(x) <= date(top[|top| - 1])
    {
      assert multiset(mine)[x] == multiset(rows)[x];
      assert x in multiset(mine) - multiset(top);
    }
  }

  lemma FewShownMeansAllShown<T(!new)>(rows: seq<T>, owner: T -> bool, mine: seq<T>, top: seq<T>)
    requires Owned(mine, rows, owner)
    requires multiset(top) <= multiset(mine) && |top| == |mine|
    ensures forall x :: owner(x) ==> multiset(top)[x] == multiset(rows)[x]
  {
    SubMultisetOfSameSize(multiset(top), multiset(mine));
  }

  /** The head of the newest-first selection satisfies every promise of a shown section. */
  lemma RecentHead<T(!new)>(rows: seq<T>, owner: T -> bool, date: T -> int, mine: seq<T>, top: seq<T>)
    requires Owned(mine, rows, owner) && |mine| > 0
    requires |top| == Min(SummaryRows, |mine|)
    requires multiset(top) <= multiset(mine)
    requires forall i, j :: 0 <= i < j < |top| ==> date(top[i]) >= date(top[j])
    requires forall x :: x in multiset(mine) - multiset(top) ==> date(x) <= date(top[|top| - 1])
    ensures RecentSection(Shown(top), rows, owner, date)
  {
    assert mine[0] in multiset(mine);
    ShownBelongToOwner(rows, owner, mine, top);
    OmittedAreOlder(rows, owner, date, mine, top);
    if |top| < SummaryRows {
      FewShownMeansAllShown(rows, owner, mine, top);
    }
  }

  /** `rows[owner].sort_values("date", ascending=False).head(5)`, or "None" when nothing is selected. */
  function RecentRows<T(!new)>(rows: seq<T>, owner: T -> bool, date: T -> int): (sec: Section<T>)
    ensures RecentSection(sec, rows, owner, date)
  {
    var mine := Filter(rows, owner);
    if |mine| == 0 then
      NoneShown
    else
      var top := MostRecent(mine, date, SummaryRows);
      RecentHead(rows, owner, date, mine, top);
      Shown(top)
  }

  /** The position of the first patient row with id `pid`, at or after `from`. */
  function FirstPatientIndex(pats: seq<Patient>, pid: string, from: nat): (r: Option<nat>)
    decreases |pats| - from
    ensures r.Some? ==> from <= r.value < |pats| && pats[r.value].patientId == pid
                        && forall j :: from <= j < r.value ==> pats[j].patientId != pid
    ensures r.None? ==> forall j :: from <= j < |pats| ==> pats[j].patientId != pid
  {
    if from >= |pats| then None
    else if pats[from].patientId == pid then Some(from)
    else FirstPatientIndex(pats, pid, from + 1)
  }

  /** The patient's row with their five latest encounters and labs, or an unknown-id message. */
  function PatientSummary(db: Database, pid: string): (r: ToolOutput)
    ensures r.Message? <==> forall p :: p in db.patients ==> p.patientId != pid
    ensures r.Message? ==> r.text == "Unknown patient_id: " + pid
    ensures !r.Message? ==> r.SummaryReport?
    ensures r.SummaryReport? ==>
              && (exists i :: 0 <= i < |db.patients| && db.patients[i] == r.patient
                              && r.patient.patientId == pid
                              && forall j :: 0 <= j < i ==> db.patients[j].patientId != pid)
              && RecentSection(r.encounters, db.encounters,
                               (e: Encounter) => e.patientId == pid, (e: Encounter) => e.date)
              && RecentSection(r.labs, db.labs, (l: Lab) => l.patientId == pid, (l: Lab) => l.date)
  {
    match FirstPatientIndex(db.patients, pid, 0)
    case None => Message("Unknown patient_id: " + pid)
    case Some(i) =>
      SummaryReport(
        db.patients[i],
        RecentRows(db.encounters, (e: Encounter) => e.patientId == pid, (e: Encounter) => e.date),
        RecentRows(db.labs, (l: Lab) => l.patientId == pid, (l: Lab) => l.date))
  }
}
