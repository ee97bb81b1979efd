/** The student page, `src/pages/students/StudentDetail.tsx`: the enrolment handler, the
    attendance tab's rows, the health tab's filter and the tabs' empty messages. */
module StudentDetail {
  import opened Common
  import CourseDetail

  // ------------------------------------------------------------ enrolment

  const NoCourseSelected := "Por favor, selecione um curso"
  const AlreadyEnrolled := "Aluno já está matriculado neste curso"

  /** `handleEnrollStudent`: refuse an empty selection, then a course some enrollment of the
      student already has (`enrolledCourses` are their `course.id`s); otherwise insert an
      active enrollment dated `today`. */
  function EnrollInCourse(studentId: string, selectedCourse: string, enrolledCourses: seq<string>, today: string)
    : (o: Outcome<CourseDetail.EnrollmentWrite>)
    ensures selectedCourse == "" ==> o == Rejected(NoCourseSelected)
    ensures selectedCourse != "" && selectedCourse in enrolledCourses ==> o == Rejected(AlreadyEnrolled)
    ensures o.Write? <==> selectedCourse != "" && selectedCourse !in enrolledCourses
    ensures o.Write? ==> o.payload == CourseDetail.EnrollmentWrite(studentId, selectedCourse, today, "active")
  {
    if selectedCourse == "" then Rejected(NoCourseSelected)
    else if selectedCourse in enrolledCourses then Rejected(AlreadyEnrolled)
    else Write(CourseDetail.EnrollmentWrite(studentId, selectedCourse, today, "active"))
  }

  /** An accepted enrolment never enrols the student twice in a course: after it, the
      course list holds the new course once more than before, i.e. exactly once. */
  lemma EnrolNoDuplicate(studentId: string, selectedCourse: string, enrolledCourses: seq<string>, today: string)
    requires NoDuplicates(enrolledCourses)
    requires EnrollInCourse(studentId, selectedCourse, enrolledCourses, today).Write?
    ensures NoDuplicates(enrolledCourses + [EnrollInCourse(studentId, selectedCourse, enrolledCourses, today).payload.courseId])
  {
    var c := selectedCourse;
    var s := enrolledCourses + [c];
    forall i, j | 0 <= i < j < |s| ensures s[i] != s[j] {
      if j == |s| - 1 {
        assert s[i] in enrolledCourses;
      }
    }
  }

  // ------------------------------------------------------------ the attendance tab

  /** An enrollment of the student; `courseName` is `courses?.name`. */
  datatype StudentEnrollment = StudentEnrollment(id: string, courseName: Option<string>)

  /** A fetched `attendance_students` row. */
  datatype AttendanceRow = AttendanceRow(id: string, enrollmentId: string, date: string, status: string, absenceReason: Option<string>)

  datatype AttendanceLine = AttendanceLine(id: string, date: string, status: string, absenceReason: Option<string>, courseName: string)

  const UnknownCourse := "Curso desconhecido"

  /** `e => e.id === record.enrollment_id` */
  function WithId(id: string): StudentEnrollment -> bool {
    (e: StudentEnrollment) => e.id == id
  }

  /** `enrollments.find(e => e.id === record.enrollment_id)`: the first match. */
  function FindEnrollment(es: seq<StudentEnrollment>, id: string): (r: Option<StudentEnrollment>)
    ensures r.None? <==> forall i :: 0 <= i < |es| ==> es[i].id != id
    ensures r.Some? ==> exists i :: 0 <= i < |es| && es[i] == r.value && r.value.id == id
                                    && forall j :: 0 <= j < i ==> es[j].id != id
  {
    Find(es, WithId(id))
  }

  /** `enrollment?.courses?.name || 'Curso desconhecido'` */
  function CourseNameFor(es: seq<StudentEnrollment>, enrollmentId: string): (name: string)
    ensures name != ""
    ensures (forall i :: 0 <= i < |es| ==> es[i].id != enrollmentId) ==> name == UnknownCourse
    ensures name != UnknownCourse ==> exists e :: e in es && e.id == enrollmentId && e.courseName == Some(name)
  {
    match FindEnrollment(es, enrollmentId)
    case None => UnknownCourse
    case Some(e) =>
      if e.courseName.Some? && e.courseName.value != "" then e.courseName.value else UnknownCourse
  }

  function FormatAttendance(es: seq<StudentEnrollment>, rows: seq<AttendanceRow>): (r: seq<AttendanceLine>)
    ensures |r| == |rows|
  {
    seq(|rows|, i requires 0 <= i < |rows| =>
      var w := rows[i];
      AttendanceLine(w.id, w.date, w.status, w.absenceReason, CourseNameFor(es, w.enrollmentId)))
  }

  /** One line per fetched row, in order, with the row's own fields and the name of the
      course of the row's enrollment, or the fallback when no enrollment matches. */
  lemma FormatAttendanceFacts(es: seq<StudentEnrollment>, rows: seq<AttendanceRow>, i: int)
    requires 0 <= i < |rows|
    ensures var l, w := FormatAttendance(es, rows)[i], rows[i];
      l.id == w.id && l.date == w.date && l.status == w.status && l.absenceReason == w.absenceReason
      && ((forall k :: 0 <= k < |es| ==> es[k].id != w.enrollmentId) ==> l.courseName == UnknownCourse)
      && (forall k :: 0 <= k < |es| && es[k].id == w.enrollmentId && es[k].courseName.Some?
            && es[k].courseName.value != "" && (forall j :: 0 <= j < k ==> es[j].id != w.enrollmentId)
            ==> l.courseName == es[k].courseName.value)
  {
    var w := rows[i];
    forall k | 0 <= k < |es| && es[k].id == w.enrollmentId && (forall j :: 0 <= j < k ==> es[j].id != w.enrollmentId)
      ensures FindEnrollment(es, w.enrollmentId) == Some(es[k])
    {
      FindAt(es, WithId(w.enrollmentId), k);
    }
  }

  /** The `attendanceRecords` state of the page. */
  class AttendanceTab {
    var lines: seq<AttendanceLine>

    constructor()
      ensures lines == []
    {
      lines := [];
    }

    /** `fetchAttendanceRecords`: the state is replaced only when the student has an
        enrollment; otherwise the previous lines stay. */
    method Load(es: seq<StudentEnrollment>, rows: seq<AttendanceRow>)
      modifies this
      ensures |es| > 0 ==> lines == FormatAttendance(es, rows)
      ensures |es| == 0 ==> lines == old(lines)
    {
      if |es| > 0 {
        lines := FormatAttendance(es, rows);
      }
    }
  }

  // ------------------------------------------------------------ the health tab

  datatype HealthRecord = HealthRecord(id: string, recordType: string, date: string, professionalName: string)

  function OfType(tab: string): HealthRecord -> bool {
    (r: HealthRecord) => r.recordType == tab
  }

  /** `filteredHealthRecords` */
  function HealthOfTab(records: seq<HealthRecord>, tab: string): (r: seq<HealthRecord>)
    ensures forall x :: x in r <==> x in records && x.recordType == tab
    ensures IsSubsequence(r, records)
  {
    FilterFacts(records, OfType(tab));
    Filter(records, OfType(tab))
  }

  /** Exactly the records of the active tab's type, in order. */
  lemma HealthOfTabFacts(records: seq<HealthRecord>, tab: string)
    ensures forall r :: r in HealthOfTab(records, tab) <==> r in records && r.recordType == tab
    ensures IsSubsequence(HealthOfTab(records, tab), records)
  {
    forall r ensures r in HealthOfTab(records, tab) <==> r in records && r.recordType == tab {
      FilterMembership(records, OfType(tab), r);
    }
    FilterIsSubsequence(records, OfType(tab));
  }

  // ------------------------------------------------------------ empty messages

  const NoEnrollments := "Nenhum curso matriculado"
  const NoAttendance := "Nenhum registro de frequência encontrado"
  const NoSocialRecords := "Nenhum registro de atendimento social encontrado"

  /** The adjective of the health tab's empty message. */
  function HealthKind(tab: string): (kind: string)
    ensures tab == "dental" ==> kind == "odontológica"
    ensures tab == "psychological" ==> kind == "psicológica"
    ensures tab == "nutritional" ==> kind == "nutricional"
    ensures tab !in ["dental", "psychological", "nutritional"] ==> kind == "médica"
  {
    if tab == "dental" then "odontológica"
    else if tab == "psychological" then "psicológica"
    else if tab == "nutritional" then "nutricional"
    else "médica"
  }

  function HealthEmptyMessage(tab: string): (m: string)
    ensures StartsWith(m, "Nenhuma ficha ")
    ensures var p, k := "Nenhuma ficha ", HealthKind(tab);
      |m| == |p| + |k| + |" encontrada"| && m[|p|..|p| + |k|] == k && m[|p| + |k|..] == " encontrada"
  {
    "Nenhuma ficha " + HealthKind(tab) + " encontrada"
  }

  /** The four health tabs get four different messages; any tab other than the first
      three gets the medical one. */
  lemma HealthEmptyMessagesDistinct(a: string, b: string)
    requires a in ["dental", "psychological", "nutritional", "medical"]
    requires b in ["dental", "psychological", "nutritional", "medical"]
    requires a != b
    ensures HealthEmptyMessage(a) != HealthEmptyMessage(b)
  {
    var ka, kb := HealthKind(a), HealthKind(b);
    var p := "Nenhuma ficha ";
    assert HealthEmptyMessage(a)[|p|..|p| + |ka|] == ka;
    assert HealthEmptyMessage(b)[|p|..|p| + |kb|] == kb;
  }

  /** The four tabs of the page; the health tab carries its active record type. */
  datatype Tab = Courses | Attendance | Social | Health(recordType: string)

  /** What a tab shows when it has no rows. */
  function EmptyMessage(t: Tab): (m: string)
    ensures t == Courses ==> m == NoEnrollments
    ensures t == Attendance ==> m == NoAttendance
    ensures t == Social ==> m == NoSocialRecords
    ensures t.Health? ==> m == HealthEmptyMessage(t.recordType)
  {
    match t
    case Courses => NoEnrollments
    case Attendance => NoAttendance
    case Social => NoSocialRecords
    case Health(k) => HealthEmptyMessage(k)
  }

  /** The tabs never show each other's empty message. */
  lemma EmptyMessagesDistinct(a: Tab, b: Tab)
    requires a.Health? ==> a.recordType in ["dental", "psychological", "nutritional", "medical"]
    requires b.Health? ==> b.recordType in ["dental", "psychological", "nutritional", "medical"]
    requires a != b
    ensures EmptyMessage(a) != EmptyMessage(b)
  {
    if a.Health? && b.Health? {
      HealthEmptyMessagesDistinct(a.recordType, b.recordType);
    } else if a.Health? || b.Health? {
      var m := if a.Health? then EmptyMessage(a) else EmptyMessage(b);
      assert m[6] == 'a';
    }
  }
}
