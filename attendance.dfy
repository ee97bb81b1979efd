/** The attendance page, `src/pages/attendance/AttendanceList.tsx`: building the sheet of
    a course for a date, editing it, the save handler's guards and payload, the grouping of
    saved attendance by course and date, and the list filter. */
module Attendance {
  import opened Common
  import opened Aggregation

  // ------------------------------------------------------------ the sheet

  /** An active enrollment of the selected course, with its student. */
  datatype Enrollment = Enrollment(id: string, studentId: string, studentName: string, studentCpf: string)

  /** An attendance row already saved for the selected date. */
  datatype Existing = Existing(enrollmentId: string, status: string, absenceReason: Option<string>)

  /** One line of the sheet (`AttendanceRecord`). */
  datatype AttendanceRecord = AttendanceRecord(
    studentId: string, studentName: string, studentCpf: string, status: string, absenceReason: string)

  /** `a => a.enrollment_id === id` */
  function OfEnrollment(enrollmentId: string): Existing -> bool {
    (a: Existing) => a.enrollmentId == enrollmentId
  }

  /** `existingAttendance.find(a => a.enrollment_id === id)`: the first match. */
  function FindExisting(existing: seq<Existing>, enrollmentId: string): (r: Option<Existing>)
    ensures r.None? <==> forall i :: 0 <= i < |existing| ==> existing[i].enrollmentId != enrollmentId
    ensures r.Some? ==> exists i :: 0 <= i < |existing| && existing[i] == r.value
                          && r.value.enrollmentId == enrollmentId
                          && forall j :: 0 <= j < i ==> existing[j].enrollmentId != enrollmentId
  {
    Find(existing, OfEnrollment(enrollmentId))
  }

  /** `existing?.absence_reason || ''` */
  function ReasonOf(e: Option<Existing>): string {
    match e
    case Some(Existing(_, _, Some(reason))) => reason
    case _ => ""
  }

  function BuildRecord(e: Enrollment, existing: seq<Existing>): AttendanceRecord {
    var found := FindExisting(existing, e.id);
    AttendanceRecord(e.studentId, e.studentName, e.studentCpf,
                     if found.Some? then found.value.status else "present", ReasonOf(found))
  }

  /** The `data.map(...)` of `fetchStudentsForCourse`. */
  function BuildRecords(enrollments: seq<Enrollment>, existing: seq<Existing>): (r: seq<AttendanceRecord>)
    ensures |r| == |enrollments|
  {
    seq(|enrollments|, i requires 0 <= i < |enrollments| => BuildRecord(enrollments[i], existing))
  }

  /** One line per enrollment, in order, carrying its student; its status is the saved one
      when the enrollment already has a row for the date and `'present'` otherwise, and its
      reason is the saved reason or `''`. */
  lemma BuildRecordsFacts(enrollments: seq<Enrollment>, existing: seq<Existing>, i: int)
    requires 0 <= i < |enrollments|
    ensures var r, e := BuildRecords(enrollments, existing)[i], enrollments[i];
      r.studentId == e.studentId && r.studentName == e.studentName && r.studentCpf == e.studentCpf
      && ((forall k :: 0 <= k < |existing| ==> existing[k].enrollmentId != e.id)
            ==> r.status == "present" && r.absenceReason == "")
      && (forall k :: 0 <= k < |existing| && existing[k].enrollmentId == e.id
            && (forall j :: 0 <= j < k ==> existing[j].enrollmentId != e.id)
            ==> r.status == existing[k].status
                && r.absenceReason == (if existing[k].absenceReason.Some? then existing[k].absenceReason.value else ""))
  {
    var e := enrollments[i];
    var found := FindExisting(existing, e.id);
    forall k | 0 <= k < |existing| && existing[k].enrollmentId == e.id
               && (forall j :: 0 <= j < k ==> existing[j].enrollmentId != e.id)
      ensures found == Some(existing[k])
    {
      var m :| 0 <= m < |existing| && existing[m] == found.value && found.value.enrollmentId == e.id
               && forall j :: 0 <= j < m ==> existing[j].enrollmentId != e.id;
      assert m == k;
    }
  }

  /** `records.map(r => r.studentId === id ? { ...r, status } : r)` */
  function WithStatus(rs: seq<AttendanceRecord>, studentId: string, status: string): (r: seq<AttendanceRecord>)
    ensures |r| == |rs|
  {
    seq(|rs|, i requires 0 <= i < |rs| => if rs[i].studentId == studentId then rs[i].(status := status) else rs[i])
  }

  /** `records.map(r => r.studentId === id ? { ...r, absenceReason: reason } : r)` */
  function WithReason(rs: seq<AttendanceRecord>, studentId: string, reason: string): (r: seq<AttendanceRecord>)
    ensures |r| == |rs|
  {
    seq(|rs|, i requires 0 <= i < |rs| => if rs[i].studentId == studentId then rs[i].(absenceReason := reason) else rs[i])
  }

  /** A status change touches only the status, and only of the lines of that student; the
      rest of the sheet, its length and order are kept. */
  lemma WithStatusFacts(rs: seq<AttendanceRecord>, studentId: string, status: string, i: int)
    requires 0 <= i < |rs|
    ensures var r := WithStatus(rs, studentId, status)[i];
      r.studentId == rs[i].studentId && r.studentName == rs[i].studentName
      && r.studentCpf == rs[i].studentCpf && r.absenceReason == rs[i].absenceReason
      && (rs[i].studentId == studentId ==> r.status == status)
      && (rs[i].studentId != studentId ==> r == rs[i])
  {
  }

  /** A reason change touches only the reason, and only of the lines of that student. */
  lemma WithReasonFacts(rs: seq<AttendanceRecord>, studentId: string, reason: string, i: int)
    requires 0 <= i < |rs|
    ensures var r := WithReason(rs, studentId, reason)[i];
      r.studentId == rs[i].studentId && r.studentName == rs[i].studentName
      && r.studentCpf == rs[i].studentCpf && r.status == rs[i].status
      && (rs[i].studentId == studentId ==> r.absenceReason == reason)
      && (rs[i].studentId != studentId ==> r == rs[i])
  {
  }

  /** The last change of a student's status wins, and status and reason edits commute. */
  lemma EditsCompose(rs: seq<AttendanceRecord>, id: string, id': string, a: string, b: string, reason: string)
    ensures WithStatus(WithStatus(rs, id, a), id, b) == WithStatus(rs, id, b)
    ensures WithReason(WithStatus(rs, id, a), id', reason) == WithStatus(WithReason(rs, id', reason), id, a)
  {
  }

  /** The `attendanceRecords` state field and its two edit handlers. */
  class AttendanceSheet {
    var records: seq<AttendanceRecord>

    /** `setAttendanceRecords(records)` after `fetchStudentsForCourse`. */
    constructor(enrollments: seq<Enrollment>, existing: seq<Existing>)
      ensures records == BuildRecords(enrollments, existing)
    {
      records := BuildRecords(enrollments, existing);
    }

    /** `handleStatusChange` */
    method SetStatus(studentId: string, status: string)
      modifies this
      ensures records == WithStatus(old(records), studentId, status)
    {
      var i := 0;
      var updated: seq<AttendanceRecord> := [];
      while i < |records|
        invariant 0 <= i <= |records|
        invariant updated == WithStatus(records, studentId, status)[..i]
      {
        var r := records[i];
        updated := updated + [if r.studentId == studentId then r.(status := status) else r];
        i := i + 1;
      }
      records := updated;
    }

    /** `handleAbsenceReasonChange` */
    method SetReason(studentId: string, reason: string)
      modifies this
      ensures records == WithReason(old(records), studentId, reason)
    {
      var i := 0;
      var updated: seq<AttendanceRecord> := [];
      while i < |records|
        invariant 0 <= i <= |records|
        invariant updated == WithReason(records, studentId, reason)[..i]
      {
        var r := records[i];
        updated := updated + [if r.studentId == studentId then r.(absenceReason := reason) else r];
        i := i + 1;
      }
      records := updated;
    }
  }

  // ------------------------------------------------------------ saving

  /** An active enrollment of the course, as the save handler reads it. */
  datatype EnrollmentRef = EnrollmentRef(id: string, studentId: string)

  /** One row to insert. */
  datatype AttendanceWrite = AttendanceWrite(enrollmentId: string, date: string, status: string, absenceReason: Option<string>)

  /** The writes of a save: the rows dated `deleteDate` of the enrollments `deleteFor` are
      deleted first (no delete call when `deleteFor` is empty), then the rows `insert` are
      inserted (no insert call when it is empty). */
  datatype SavePlan = SavePlan(deleteDate: string, deleteFor: seq<string>, insert: seq<AttendanceWrite>)

  const NoCourse := "Por favor, selecione um curso"
  const NoDate := "Por favor, selecione uma data"
  const NoStudents := "Não há alunos para registrar frequência"

  /** `e => e.student_id === studentId` */
  function OfStudent(studentId: string): EnrollmentRef -> bool {
    (e: EnrollmentRef) => e.studentId == studentId
  }

  /** `enrollments.find(e => e.student_id === studentId)`: the first match. */
  function FindEnrollment(enrollments: seq<EnrollmentRef>, studentId: string): (r: Option<EnrollmentRef>)
    ensures r.None? <==> forall i :: 0 <= i < |enrollments| ==> enrollments[i].studentId != studentId
    ensures r.Some? ==> exists i :: 0 <= i < |enrollments| && enrollments[i] == r.value
                          && r.value.studentId == studentId
                          && forall j :: 0 <= j < i ==> enrollments[j].studentId != studentId
  {
    Find(enrollments, OfStudent(studentId))
  }

  /** The write for one line: `enrollment?.id` of the student's first enrollment, the
      date, the status and the reason of an absence; none when the student has no
      enrollment or its id is empty (`filter(record => record.enrollment_id)`). */
  function WriteFor(r: AttendanceRecord, enrollments: seq<EnrollmentRef>, date: string): (w: Option<AttendanceWrite>)
    ensures w.None? <==> FindEnrollment(enrollments, r.studentId).None? || FindEnrollment(enrollments, r.studentId).value.id == ""
    ensures w.Some? ==> w.value.enrollmentId == FindEnrollment(enrollments, r.studentId).value.id
                        && w.value.enrollmentId != "" && w.value.date == date && w.value.status == r.status
    ensures w.Some? ==> w.value.absenceReason == (if r.status == "absent" then Some(r.absenceReason) else None)
  {
    match FindEnrollment(enrollments, r.studentId)
    case None => None
    case Some(e) =>
      if e.id == "" then None
      else Some(AttendanceWrite(e.id, date, r.status, if r.status == "absent" then Some(r.absenceReason) else None))
  }

  /** `attendanceRecords.map(...).filter(record => record.enrollment_id)` */
  function Payload(rs: seq<AttendanceRecord>, enrollments: seq<EnrollmentRef>, date: string): (p: seq<AttendanceWrite>)
    ensures |p| <= |rs|
    ensures forall w :: w in p ==> w.enrollmentId != "" && w.date == date
                                   && (w.status == "absent" <==> w.absenceReason.Some?)
    decreases |rs|
  {
    if |rs| == 0 then []
    else
      var rest := Payload(rs[1..], enrollments, date);
      match WriteFor(rs[0], enrollments, date)
      case None => rest
      case Some(w) => [w] + rest
  }

  /** The payload is built line by line: the payload of two sheets one after the other
      is the first's followed by the second's. */
  lemma {:induction false} PayloadAppend(x: seq<AttendanceRecord>, y: seq<AttendanceRecord>,
                                         enrollments: seq<EnrollmentRef>, date: string)
    ensures Payload(x + y, enrollments, date) == Payload(x, enrollments, date) + Payload(y, enrollments, date)
    decreases |x|
  {
    if |x| == 0 {
      assert x + y == y;
    } else {
      assert (x + y)[0] == x[0] && (x + y)[1..] == x[1..] + y;
      PayloadAppend(x[1..], y, enrollments, date);
    }
  }

  /** One line gives its write, or nothing when the line has no enrollment id. */
  lemma PayloadSingle(r: AttendanceRecord, enrollments: seq<EnrollmentRef>, date: string)
    ensures WriteFor(r, enrollments, date).Some? ==> Payload([r], enrollments, date) == [WriteFor(r, enrollments, date).value]
    ensures WriteFor(r, enrollments, date).None? ==> Payload([r], enrollments, date) == []
  {
    assert [r][1..] == [];
  }

  /** A write is in the payload exactly when some line produces it. */
  lemma {:induction false} PayloadMembers(rs: seq<AttendanceRecord>, enrollments: seq<EnrollmentRef>, date: string,
                                          w: AttendanceWrite)
    ensures w in Payload(rs, enrollments, date) <==> exists i :: 0 <= i < |rs| && WriteFor(rs[i], enrollments, date) == Some(w)
    decreases |rs|
  {
    if |rs| > 0 {
      PayloadMembers(rs[1..], enrollments, date, w);
      assert forall i :: 1 <= i < |rs| ==> rs[i] == rs[1..][i - 1];
      if exists i :: 0 <= i < |rs| && WriteFor(rs[i], enrollments, date) == Some(w) {
        var i :| 0 <= i < |rs| && WriteFor(rs[i], enrollments, date) == Some(w);
        if i > 0 {
          assert WriteFor(rs[1..][i - 1], enrollments, date) == Some(w);
        }
      }
    }
  }

  /** When every student of the sheet has an enrollment with an id, nothing is dropped:
      one write per line, in order. */
  lemma {:induction false} PayloadComplete(rs: seq<AttendanceRecord>, enrollments: seq<EnrollmentRef>, date: string)
    requires forall i :: 0 <= i < |rs| ==> WriteFor(rs[i], enrollments, date).Some?
    ensures |Payload(rs, enrollments, date)| == |rs|
    ensures forall i :: 0 <= i < |rs| ==> Payload(rs, enrollments, date)[i] == WriteFor(rs[i], enrollments, date).value
    decreases |rs|
  {
    if |rs| > 0 {
      assert forall i :: 1 <= i < |rs| ==> rs[i] == rs[1..][i - 1];
      PayloadComplete(rs[1..], enrollments, date);
    }
  }

  /** The ids `enrollments.map(e => e.id)` */
  function EnrollmentIds(enrollments: seq<EnrollmentRef>): (ids: seq<string>)
    ensures |ids| == |enrollments| && forall i :: 0 <= i < |ids| ==> ids[i] == enrollments[i].id
  {
    seq(|enrollments|, i requires 0 <= i < |enrollments| => enrollments[i].id)
  }

  /** `handleSaveAttendance`: the three guards in order, then the delete and the insert.
      `enrollments` is what the enrollments query returns. */
  function SaveAttendance(selectedCourse: string, selectedDate: string, records: seq<AttendanceRecord>,
                          enrollments: seq<EnrollmentRef>): (o: Outcome<SavePlan>)
    ensures selectedCourse == "" ==> o == Rejected(NoCourse)
    ensures selectedCourse != "" && selectedDate == "" ==> o == Rejected(NoDate)
    ensures selectedCourse != "" && selectedDate != "" && |records| == 0 ==> o == Rejected(NoStudents)
    ensures o.Write? <==> selectedCourse != "" && selectedDate != "" && |records| > 0
    ensures o.Write? ==> o.payload.deleteDate == selectedDate && o.payload.deleteFor == EnrollmentIds(enrollments)
                         && o.payload.insert == Payload(records, enrollments, selectedDate)
  {
    if selectedCourse == "" then Rejected(NoCourse)
    else if selectedDate == "" then Rejected(NoDate)
    else if |records| == 0 then Rejected(NoStudents)
    else Write(SavePlan(selectedDate, EnrollmentIds(enrollments), Payload(records, enrollments, selectedDate)))
  }

  // ------------------------------------------------------------ saved attendance

  /** A fetched attendance row: its course and its date. */
  datatype SavedRow = SavedRow(courseId: string, courseName: string, date: string)

  /** One entry of `savedAttendances`. */
  datatype SavedAttendance = SavedAttendance(courseId: string, courseName: string, date: string, count: nat)

  /** `${courseId}-${date}` */
  function GroupKey(r: SavedRow): string {
    r.courseId + "-" + r.date
  }

  function GroupKeys(rows: seq<SavedRow>): (ks: seq<string>)
    ensures |ks| == |rows| && forall i :: 0 <= i < |rows| ==> ks[i] == GroupKey(rows[i])
  {
    seq(|rows|, i requires 0 <= i < |rows| => GroupKey(rows[i]))
  }

  /** One entry per group, described by the group's first row. */
  function Describe(rows: seq<SavedRow>, t: seq<Group>): (r: seq<SavedAttendance>)
    requires forall j :: 0 <= j < |t| ==> t[j].first < |rows|
    ensures |r| == |t|
  {
    seq(|t|, j requires 0 <= j < |t| =>
      var row := rows[t[j].first];
      SavedAttendance(row.courseId, row.courseName, row.date, t[j].count))
  }

  /** The key an entry is filed under in the accumulator. */
  function EntryKey(a: SavedAttendance): string {
    a.courseId + "-" + a.date
  }

  /** The sum of the entries' counts. */
  function CountSum(g: seq<SavedAttendance>): nat {
    if |g| == 0 then 0 else CountSum(g[..|g| - 1]) + g[|g| - 1].count
  }

  /** Describing groups keeps their counts: the entries add up to the groups' total. */
  lemma {:induction false} DescribeCountSum(rows: seq<SavedRow>, t: seq<Group>)
    requires forall j :: 0 <= j < |t| ==> t[j].first < |rows|
    ensures CountSum(Describe(rows, t)) == Total(t)
    decreases |t|
  {
    if |t| > 0 {
      var n := |t| - 1;
      assert Describe(rows, t)[..n] == Describe(rows, t[..n]);
      DescribeCountSum(rows, t[..n]);
    }
  }

  /** An entry built from a group is filed under the key of the group's first row. */
  lemma DescribeKeys(rows: seq<SavedRow>, t: seq<Group>)
    requires forall j :: 0 <= j < |t| ==> t[j].first < |rows|
    ensures forall j :: 0 <= j < |t| ==> EntryKey(Describe(rows, t)[j]) == GroupKey(rows[t[j].first])
  {
  }

  /** The entries of the tally of the rows' keys carry the tally's keys, once each, and
      cover every row. */
  lemma DescribeTally(rows: seq<SavedRow>)
    ensures var t := Tally(GroupKeys(rows));
      (forall j :: 0 <= j < |t| ==> t[j].first < |rows|)
      && (forall j :: 0 <= j < |t| ==> EntryKey(Describe(rows, t)[j]) == t[j].key)
  {
    var ks := GroupKeys(rows);
    TallyFacts(ks);
    DescribeKeys(rows, Tally(ks));
  }

  /** The reference: one entry per key, described by the key's first row and holding the
      key's number of rows. No two entries share a key, and every row's key has an entry. */
  function Grouped(rows: seq<SavedRow>): (g: seq<SavedAttendance>)
    ensures |g| == |Tally(GroupKeys(rows))|
    ensures forall j :: 0 <= j < |g| ==> EntryKey(g[j]) == Tally(GroupKeys(rows))[j].key
    ensures forall j :: 0 <= j < |g| ==>
      g[j].count == Occurrences(GroupKeys(rows), EntryKey(g[j])) && g[j].count >= 1
    ensures forall j, j' :: 0 <= j < j' < |g| ==> EntryKey(g[j]) != EntryKey(g[j'])
    ensures forall i :: 0 <= i < |rows| ==> exists j :: 0 <= j < |g| && EntryKey(g[j]) == GroupKey(rows[i])
  {
    var ks := GroupKeys(rows);
    var t := Tally(ks);
    DescribeTally(rows);
    TallyFacts(ks);
    GroupedCovers(rows);
    Describe(rows, t)
  }

  /** Every row's key is the key of some entry. */
  lemma GroupedCovers(rows: seq<SavedRow>)
    ensures var t := Tally(GroupKeys(rows));
      (forall j :: 0 <= j < |t| ==> t[j].first < |rows|)
      && forall i :: 0 <= i < |rows| ==>
           exists j :: 0 <= j < |t| && EntryKey(Describe(rows, t)[j]) == GroupKey(rows[i])
  {
    var ks := GroupKeys(rows);
    var t := Tally(ks);
    DescribeTally(rows);
    TallyFacts(ks);
    forall i | 0 <= i < |rows|
      ensures exists j :: 0 <= j < |t| && EntryKey(Describe(rows, t)[j]) == GroupKey(rows[i])
    {
      assert ks[i] in Aggregation.GroupKeys(t);
      var j :| 0 <= j < |t| && Aggregation.GroupKeys(t)[j] == ks[i];
      assert EntryKey(Describe(rows, t)[j]) == t[j].key;
    }
  }

  /** The `reduce` of `fetchSavedAttendances`. */
  method GroupSavedAttendances(rows: seq<SavedRow>) returns (saved: seq<SavedAttendance>)
    ensures saved == Grouped(rows)
  {
    var t := CountAll(GroupKeys(rows));
    TallyFacts(GroupKeys(rows));
    saved := [];
    var j := 0;
    while j < |t|
      invariant 0 <= j <= |t|
      invariant saved == Describe(rows, t)[..j]
    {
      var r := rows[t[j].first];
      saved := saved + [SavedAttendance(r.courseId, r.courseName, r.date, t[j].count)];
      j := j + 1;
    }
  }

  /** With dates of one length (ISO dates), the key determines the course id and the date. */
  lemma GroupKeyInjective(a: SavedRow, b: SavedRow)
    requires |a.date| == |b.date|
    ensures GroupKey(a) == GroupKey(b) <==> a.courseId == b.courseId && a.date == b.date
  {
    if GroupKey(a) == GroupKey(b) {
      var k := GroupKey(a);
      assert |a.courseId| == |b.courseId|;
      assert a.courseId == k[..|a.courseId|] == b.courseId;
      assert a.date == k[|a.courseId| + 1..] == b.date;
    }
  }

  /** Entry `j` is described by the first row of its course and date. */
  lemma GroupedFirstRow(rows: seq<SavedRow>, j: int)
    requires 0 <= j < |Grouped(rows)|
    ensures var a := Grouped(rows)[j];
      exists i :: (0 <= i < |rows| && GroupKey(rows[i]) == EntryKey(a)
        && (forall i' :: 0 <= i' < i ==> GroupKey(rows[i']) != EntryKey(a))
        && a.courseId == rows[i].courseId && a.courseName == rows[i].courseName && a.date == rows[i].date)
  {
    var ks := GroupKeys(rows);
    var t := Tally(ks);
    TallyFacts(ks);
    var i := t[j].first;
    var a := Grouped(rows)[j];
    assert a == SavedAttendance(rows[i].courseId, rows[i].courseName, rows[i].date, t[j].count);
    assert GroupKey(rows[i]) == ks[i] == EntryKey(a);
    assert forall i' :: 0 <= i' < i ==> GroupKey(rows[i']) == ks[i'] != EntryKey(a);
  }

  /** The entries' counts add up to the number of fetched rows, and each entry is described
      by the first row of its course and date. */
  lemma GroupedFacts(rows: seq<SavedRow>)
    ensures CountSum(Grouped(rows)) == |rows|
    ensures var g := Grouped(rows);
      forall j :: 0 <= j < |g| ==>
        exists i :: (0 <= i < |rows| && GroupKey(rows[i]) == EntryKey(g[j])
          && (forall i' :: 0 <= i' < i ==> GroupKey(rows[i']) != EntryKey(g[j]))
          && g[j].courseId == rows[i].courseId && g[j].courseName == rows[i].courseName
          && g[j].date == rows[i].date)
  {
    var ks := GroupKeys(rows);
    DescribeTally(rows);
    DescribeCountSum(rows, Tally(ks));
    TallyTotal(ks);
    forall j | 0 <= j < |Grouped(rows)| {
      GroupedFirstRow(rows, j);
    }
  }

  // ------------------------------------------------------------ list filter

  /** The `filteredAttendances` predicate. `today`, `weekAgo` and `monthAgo` are the ISO
      dates the handler computes from the clock. */
  predicate KeepSaved(a: SavedAttendance, searchTerm: string, filter: string,
                      today: string, weekAgo: string, monthAgo: string): (keep: bool)
    ensures searchTerm != "" ==> (keep <==> IncludesIgnoringCase(a.courseName, searchTerm))
    ensures searchTerm == "" && filter == "today" ==> (keep <==> a.date == today)
    ensures searchTerm == "" && filter == "week" ==> (keep <==> StrGreaterEq(a.date, weekAgo))
    ensures searchTerm == "" && filter == "month" ==> (keep <==> StrGreaterEq(a.date, monthAgo))
    ensures searchTerm == "" && filter !in ["today", "week", "month"] ==> keep
  {
    if searchTerm != "" then IncludesIgnoringCase(a.courseName, searchTerm)
    else if filter == "today" then a.date == today
    else if filter == "week" then StrGreaterEq(a.date, weekAgo)
    else if filter == "month" then StrGreaterEq(a.date, monthAgo)
    else true
  }

  /** `filteredAttendances`: the entries the predicate keeps, in order. */
  function FilteredAttendances(saved: seq<SavedAttendance>, searchTerm: string, filter: string,
                               today: string, weekAgo: string, monthAgo: string): (r: seq<SavedAttendance>)
    ensures forall x :: x in r <==> x in saved && KeepSaved(x, searchTerm, filter, today, weekAgo, monthAgo)
    ensures IsSubsequence(r, saved)
  {
    FilterFacts(saved, (a: SavedAttendance) => KeepSaved(a, searchTerm, filter, today, weekAgo, monthAgo));
    Filter(saved, (a: SavedAttendance) => KeepSaved(a, searchTerm, filter, today, weekAgo, monthAgo))
  }

  /** A search term decides alone, whatever the date filter; without one, an unknown filter
      keeps everything; the result keeps the order of the list. */
  lemma FilteredAttendancesFacts(saved: seq<SavedAttendance>, searchTerm: string, filter: string, filter': string,
                                 today: string, weekAgo: string, monthAgo: string)
    ensures searchTerm != "" ==>
      FilteredAttendances(saved, searchTerm, filter, today, weekAgo, monthAgo)
      == FilteredAttendances(saved, searchTerm, filter', today, weekAgo, monthAgo)
    ensures searchTerm == "" && filter !in ["today", "week", "month"] ==>
      FilteredAttendances(saved, searchTerm, filter, today, weekAgo, monthAgo) == saved
    ensures IsSubsequence(FilteredAttendances(saved, searchTerm, filter, today, weekAgo, monthAgo), saved)
    ensures forall a :: a in FilteredAttendances(saved, searchTerm, filter, today, weekAgo, monthAgo)
                        <==> a in saved && KeepSaved(a, searchTerm, filter, today, weekAgo, monthAgo)
  {
    var p := (a: SavedAttendance) => KeepSaved(a, searchTerm, filter, today, weekAgo, monthAgo);
    var p' := (a: SavedAttendance) => KeepSaved(a, searchTerm, filter', today, weekAgo, monthAgo);
    if searchTerm != "" {
      FilterExt(saved, p, p');
    }
    if searchTerm == "" && filter !in ["today", "week", "month"] {
      FilterKeepsAll(saved, p);
    }
    FilterIsSubsequence(saved, p);
    forall a ensures a in Filter(saved, p) <==> a in saved && p(a) {
      FilterMembership(saved, p, a);
    }
  }

  /** Under `'today'` the entries of today are kept, and under `'week'` an entry dated at
      the cutoff is kept. */
  lemma FilterBoundaries(a: SavedAttendance, today: string, weekAgo: string, monthAgo: string)
    ensures a.date == today ==> KeepSaved(a, "", "today", today, weekAgo, monthAgo)
    ensures a.date == weekAgo ==> KeepSaved(a, "", "week", today, weekAgo, monthAgo)
  {
    StrLessIrreflexive(a.date);
  }
}
