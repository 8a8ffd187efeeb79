/**
 * The closed set of operations a routed line can name, their wire form as the routers return
 * it (a tool name and a string-to-string argument map), and the dispatcher `run_tool`.
 */
module Calls {

  import opened Wrappers
  import opened Tables
  import opened Tools

  datatype Call =
    | ListTablesCall
    | ShowSchemaCall
    | FindPatientCall(nameContains: string)
    | PatientsByIcd10Call(icd10: string)
    | LatestLabCall(patientId: string, test: string)
    | PatientSummaryCall(patientId: string)

  const KnownTools: set<string> :=
    {"list_tables", "show_schema", "find_patient", "patients_by_icd10", "latest_lab", "patient_summary"}

  function ToolName(c: Call): (name: string)
    ensures name in KnownTools
  {
    match c
    case ListTablesCall => "list_tables"
    case ShowSchemaCall => "show_schema"
    case FindPatientCall(_) => "find_patient"
    case PatientsByIcd10Call(_) => "patients_by_icd10"
    case LatestLabCall(_, _) => "latest_lab"
    case PatientSummaryCall(_) => "patient_summary"
  }

  function Args(c: Call): map<string, string> {
    match c
    case ListTablesCall => map[]
    case ShowSchemaCall => map[]
    case FindPatientCall(q) => map["name_contains" := q]
    case PatientsByIcd10Call(code) => map["icd10" := code]
    case LatestLabCall(pid, test) => map["patient_id" := pid, "test" := test]
    case PatientSummaryCall(pid) => map["patient_id" := pid]
  }

  /** The typed dispatcher: one query per operation, nothing else reachable. */
  function Execute(db: Database, c: Call): ToolOutput {
    match c
    case ListTablesCall => Message(ListTables(Catalog()))
    case ShowSchemaCall => Message(ShowSchema(Catalog()))
    case FindPatientCall(q) => FindPatient(db.patients, q)
    case PatientsByIcd10Call(code) => PatientsByIcd10(db, code)
    case LatestLabCall(pid, test) => LatestLab(db.labs, pid, test)
    case PatientSummaryCall(pid) => PatientSummary(db, pid)
  }

  /** What `run_tool` produces: a query's output, or the `KeyError` of a missing argument. */
  datatype Outcome = Done(output: ToolOutput) | KeyError(key: string)

  /** `run_tool(tables, name, args)`, dispatching on the tool name string. */
  function RunTool(db: Database, name: string, args: map<string, string>): (r: Outcome)
    ensures name !in KnownTools ==> r == Done(Message("Unknown tool: " + name))
    ensures r.KeyError? ==> name in KnownTools && r.key !in args
    ensures name == "list_tables" ==> r == Done(Message(ListTables(Catalog())))
    ensures name == "show_schema" ==> r == Done(Message(ShowSchema(Catalog())))
    ensures name == "find_patient" ==>
              r == if "name_contains" in args then Done(FindPatient(db.patients, args["name_contains"]))
                   else KeyError("name_contains")
    ensures name == "patients_by_icd10" ==>
              r == if "icd10" in args then Done(PatientsByIcd10(db, args["icd10"])) else KeyError("icd10")
    ensures name == "latest_lab" ==>
              r == if "patient_id" !in args then KeyError("patient_id")
                   else if "test" !in args then KeyError("test")
                   else Done(LatestLab(db.labs, args["patient_id"], args["test"]))
    ensures name == "patient_summary" ==>
              r == if "patient_id" in args then Done(PatientSummary(db, args["patient_id"]))
                   else KeyError("patient_id")
  {
    if name == "list_tables" then Done(Message(ListTables(Catalog())))
    else if name == "show_schema" then Done(Message(ShowSchema(Catalog())))
    else if name == "find_patient" then
      if "name_contains" !in args then KeyError("name_contains")
      else Done(FindPatient(db.patients, args["name_contains"]))
    else if name == "patients_by_icd10" then
      if "icd10" !in args then KeyError("icd10")
      else Done(PatientsByIcd10(db, args["icd10"]))
    else if name == "latest_lab" then
      if "patient_id" !in args then KeyError("patient_id")
      else if "test" !in args then KeyError("test")
      else Done(LatestLab(db.labs, args["patient_id"], args["test"]))
    else if name == "patient_summary" then
      if "patient_id" !in args then KeyError("patient_id")
      else Done(PatientSummary(db, args["patient_id"]))
    else Done(Message("Unknown tool: " + name))
  }

  /** Dispatching an operation's wire form runs exactly that operation's query. */
  lemma RunToolOnCall(db: Database, c: Call)
    ensures RunTool(db, ToolName(c), Args(c)) == Done(Execute(db, c))
  {
  }

  /** Distinct operations have distinct wire forms, so the wire form loses nothing. */
  lemma WireFormInjective(c1: Call, c2: Call)
    requires ToolName(c1) == ToolName(c2) && Args(c1) == Args(c2)
    ensures c1 == c2
  {
    match c1
    case FindPatientCall(_) => assert Args(c1)["name_contains"] == Args(c2)["name_contains"];
    case PatientsByIcd10Call(_) => assert Args(c1)["icd10"] == Args(c2)["icd10"];
    case LatestLabCall(_, _) =>
      assert Args(c1)["patient_id"] == Args(c2)["patient_id"];
      assert Args(c1)["test"] == Args(c2)["test"];
    case PatientSummaryCall(_) => assert Args(c1)["patient_id"] == Args(c2)["patient_id"];
    case _ =>
  }
}
