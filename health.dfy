/** The health records page, `src/pages/health/HealthRecordsList.tsx`: the creation form,
    the row it inserts (common fields plus the blank fields of its specialty) and the list
    filter. */
module Health {
  import opened Common

  /** The values the inserted row's fields take. */
  datatype FieldValue = Text(text: string) | Null | EmptyList

  /** The row is a JavaScript object: field names to values. */
  type Row = map<string, FieldValue>

  const RecordTypes: seq<string> := ["dental", "psychological", "nutritional", "medical"]

  const BaseKeys: set<string> := {"student_id", "record_type", "date", "professional_name", "notes"}

  /** The value a blank field starts with. */
  predicate IsBlank(v: FieldValue) {
    v == Text("") || v == Null || v == EmptyList
  }

  /** The fields `Object.assign` adds for each specialty; none for an unknown one. */
  function SpecialtyFields(recordType: string): (fields: Row)
    ensures recordType !in RecordTypes ==> fields == map[]
    ensures forall k :: k in fields ==> IsBlank(fields[k]) && k !in BaseKeys
  {
    if recordType == "dental" then
      map["dental_history" := Text(""), "hygiene_habits" := Text(""), "previous_treatments" := Text("")]
    else if recordType == "psychological" then
      map["emotional_history" := Text(""), "behavior_assessment" := Text(""), "diagnosis" := Text(""),
          "referrals" := Text(""), "observations" := Text("")]
    else if recordType == "nutritional" then
      map["nutritional_assessment" := Text(""), "eating_habits" := Text(""), "bmi" := Null,
          "suggested_meal_plan" := Text("")]
    else if recordType == "medical" then
      map["clinical_history" := Text(""), "allergies" := EmptyList, "medications" := EmptyList,
          "preexisting_conditions" := EmptyList]
    else map[]
  }

  /** `newRecord` before the specialty's fields are merged in. */
  function BaseFields(student: string, recordType: string, today: string, professional: string, notes: string): (r: Row)
    ensures r.Keys == BaseKeys
  {
    map["student_id" := Text(student), "record_type" := Text(recordType), "date" := Text(today),
        "professional_name" := Text(professional), "notes" := Text(notes)]
  }

  /** The row after `Object.assign(newRecord, …)`. */
  function NewRecord(student: string, recordType: string, today: string, professional: string, notes: string): (r: Row)
    ensures r.Keys == BaseKeys + SpecialtyFields(recordType).Keys
    ensures r["student_id"] == Text(student) && r["record_type"] == Text(recordType) && r["date"] == Text(today)
            && r["professional_name"] == Text(professional) && r["notes"] == Text(notes)
    ensures forall k :: k in r && k !in BaseKeys ==> k in SpecialtyFields(recordType) && IsBlank(r[k])
  {
    BaseFields(student, recordType, today, professional, notes) + SpecialtyFields(recordType)
  }

  const NoStudent := "Por favor, selecione um aluno"
  const NoProfessional := "Por favor, informe o nome do profissional"

  /** `handleCreateRecord`'s decision. */
  function CreateRecord(student: string, professional: string, notes: string, recordType: string, today: string)
    : (o: Outcome<Row>)
    ensures student == "" ==> o == Rejected(NoStudent)
    ensures student != "" && professional == "" ==> o == Rejected(NoProfessional)
    ensures o.Write? <==> student != "" && professional != ""
    ensures o.Write? ==> o.payload == NewRecord(student, recordType, today, professional, notes)
  {
    if student == "" then Rejected(NoStudent)
    else if professional == "" then Rejected(NoProfessional)
    else Write(NewRecord(student, recordType, today, professional, notes))
  }

  /** The form's state fields. */
  class HealthForm {
    var selectedStudent: string
    var professionalName: string
    var notes: string
    var recordType: string

    constructor()
      ensures selectedStudent == "" && professionalName == "" && notes == "" && recordType == "dental"
    {
      selectedStudent, professionalName, notes, recordType := "", "", "", "dental";
    }

    /** `openModalWithType` */
    method OpenWithType(t: string)
      modifies this
      ensures recordType == t
      ensures selectedStudent == old(selectedStudent) && professionalName == old(professionalName) && notes == old(notes)
    {
      recordType := t;
    }

    /** `handleCreateRecord`; `inserted` is whether the backend accepted the row. The row
        is built from the common fields and then extended with the specialty's fields. */
    method Create(today: string, inserted: bool) returns (o: Outcome<Row>)
      modifies this
      ensures o == CreateRecord(old(selectedStudent), old(professionalName), old(notes), old(recordType), today)
      ensures recordType == old(recordType)
      ensures o.Write? && inserted ==> selectedStudent == "" && professionalName == "" && notes == ""
      ensures !(o.Write? && inserted) ==>
        selectedStudent == old(selectedStudent) && professionalName == old(professionalName) && notes == old(notes)
    {
      if selectedStudent == "" {
        return Rejected(NoStudent);
      }
      if professionalName == "" {
        return Rejected(NoProfessional);
      }
      var row := BaseFields(selectedStudent, recordType, today, professionalName, notes);
      row := row + SpecialtyFields(recordType);
      o := Write(row);
      if inserted {
        selectedStudent, professionalName, notes := "", "", "";
      }
    }
  }

  // ------------------------------------------------------------ the list

  /** A fetched row; `joinedName` is `record.students.full_name`. */
  datatype FetchedRecord = FetchedRecord(
    id: string, studentId: string, joinedName: string, recordType: string, date: string, professionalName: string)

  datatype HealthRecord = HealthRecord(
    id: string, studentId: string, studentName: string, recordType: string, date: string, professionalName: string)

  /** `formattedRecords` */
  function FormatRecords(rows: seq<FetchedRecord>): (r: seq<HealthRecord>)
    ensures |r| == |rows|
    ensures forall i :: 0 <= i < |rows| ==>
      r[i] == HealthRecord(rows[i].id, rows[i].studentId, rows[i].joinedName, rows[i].recordType,
                           rows[i].date, rows[i].professionalName)
  {
    seq(|rows|, i requires 0 <= i < |rows| =>
      var w := rows[i];
      HealthRecord(w.id, w.studentId, w.joinedName, w.recordType, w.date, w.professionalName))
  }

  /** The `filteredRecords` predicate. */
  predicate KeepRecord(r: HealthRecord, term: string) {
    if term != "" then IncludesIgnoringCase(r.studentName, term) || IncludesIgnoringCase(r.professionalName, term)
    else true
  }

  /** `filteredRecords`: the records the predicate keeps, in order. */
  function FilteredRecords(records: seq<HealthRecord>, term: string): (r: seq<HealthRecord>)
    ensures forall x :: x in r <==> x in records && KeepRecord(x, term)
    ensures IsSubsequence(r, records)
  {
    FilterFacts(records, (r: HealthRecord) => KeepRecord(r, term));
    Filter(records, (r: HealthRecord) => KeepRecord(r, term))
  }

  /** A record is kept when the student's or the professional's name contains the term,
      ignoring case; an empty term keeps every record; the order is kept. */
  lemma FilteredRecordsFacts(records: seq<HealthRecord>, term: string)
    ensures forall r :: r in FilteredRecords(records, term) <==>
      r in records && (term == "" || IncludesIgnoringCase(r.studentName, term) || IncludesIgnoringCase(r.professionalName, term))
    ensures term == "" ==> FilteredRecords(records, term) == records
    ensures IsSubsequence(FilteredRecords(records, term), records)
  {
    var p := (r: HealthRecord) => KeepRecord(r, term);
    forall r ensures r in Filter(records, p) <==> r in records && p(r) {
      FilterMembership(records, p, r);
    }
    if term == "" {
      FilterKeepsAll(records, p);
    }
    FilterIsSubsequence(records, p);
  }
}
