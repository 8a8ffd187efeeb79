/**
 * The three in-memory tables the loader hands to the queries, one row datatype per table.
 * Calendar dates are day ordinals; a lab value is carried along but never computed on.
 */
module Tables {

  import opened Wrappers

  /** A row of `patients`. A missing name (an empty CSV cell) is `None`. */
  datatype Patient = Patient(patientId: string, name: Option<string>, sex: string, dob: int)

  /** A row of `encounters`; `patientId` need not exist in `patients`. */
  datatype Encounter = Encounter(patientId: string, date: int, visitType: string, icd10: string)

  /** A row of `labs`; `patientId` need not exist in `patients`. */
  datatype Lab = Lab(patientId: string, date: int, test: string, value: real, unit: string)

  datatype Database = Database(patients: seq<Patient>, encounters: seq<Encounter>, labs: seq<Lab>)

  /** One entry of the table mapping: a table's name and its columns in declared order. */
  datatype TableInfo = TableInfo(name: string, columns: seq<string>)

  function TableNames(catalog: seq<TableInfo>): (names: seq<string>)
    ensures |names| == |catalog|
    ensures forall i :: 0 <= i < |catalog| ==> names[i] == catalog[i].name
  {
    seq(|catalog|, i requires 0 <= i < |catalog| => catalog[i].name)
  }

  /** The table mapping in the loader's insertion order. */
  function Catalog(): seq<TableInfo> {
    [ TableInfo("patients", ["patient_id", "name", "sex", "dob"]),
      TableInfo("encounters", ["patient_id", "date", "visit_type", "icd10"]),
      TableInfo("labs", ["patient_id", "date", "test", "value", "unit"]) ]
  }

  /** `patient_id` is a key of `patients`. */
  predicate UniquePatientIds(pats: seq<Patient>) {
    forall i, j :: 0 <= i < j < |pats| ==> pats[i].patientId != pats[j].patientId
  }
}
