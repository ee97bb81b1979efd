/** The course page, `src/pages/courses/CourseDetail.tsx`: the students offered for a new
    enrolment, the enrolment handler, the enrolment counts card and the attendance modal's
    list. */
module CourseDetail {
  import opened Common
  import opened Aggregation
  import opened Reports

  datatype Student = Student(id: string, fullName: string, cpf: string)

  /** An enrollment of the course joined with its student. */
  datatype CourseEnrollment = CourseEnrollment(id: string, studentId: string, status: string, student: Student)

  // ------------------------------------------------------------ available students

  /** `student => !enrolledIds.includes(student.id)` */
  function NotEnrolled(enrolledIds: seq<string>): Student -> bool {
    (s: Student) => s.id !in enrolledIds
  }

  /** `fetchAvailableStudents`: every student, in the students query's order, minus those
      already enrolled in the course. */
  function AvailableStudents(all: seq<Student>, enrolledIds: seq<string>): (r: seq<Student>)
    ensures forall s :: s in r <==> s in all && s.id !in enrolledIds
    ensures IsSubsequence(r, all)
  {
    FilterFacts(all, NotEnrolled(enrolledIds));
    Filter(all, NotEnrolled(enrolledIds))
  }

  lemma AvailableStudentsFacts(all: seq<Student>, enrolledIds: seq<string>)
    ensures forall s :: s in AvailableStudents(all, enrolledIds) <==> s in all && s.id !in enrolledIds
    ensures IsSubsequence(AvailableStudents(all, enrolledIds), all)
    ensures |enrolledIds| == 0 ==> AvailableStudents(all, enrolledIds) == all
  {
    forall s ensures s in AvailableStudents(all, enrolledIds) <==> s in all && s.id !in enrolledIds {
      FilterMembership(all, NotEnrolled(enrolledIds), s);
    }
    FilterIsSubsequence(all, NotEnrolled(enrolledIds));
    if |enrolledIds| == 0 {
      FilterKeepsAll(all, NotEnrolled(enrolledIds));
    }
  }

  // ------------------------------------------------------------ enrolment

  /** The row `handleEnrollStudent` inserts. */
  datatype EnrollmentWrite = EnrollmentWrite(studentId: string, courseId: string, enrollmentDate: string, status: string)

  const NoStudentSelected := "Por favor, selecione um aluno"

  /** `handleEnrollStudent`: no student selected means no insert; otherwise an active
      enrollment of that student in this course, dated `today`. */
  function EnrollStudent(selectedStudent: string, courseId: string, today: string): (o: Outcome<EnrollmentWrite>)
    ensures o.Rejected? <==> selectedStudent == ""
    ensures o.Rejected? ==> o.message == NoStudentSelected
    ensures o.Write? ==> o.payload.studentId == selectedStudent && o.payload.courseId == courseId
                         && o.payload.enrollmentDate == today && o.payload.status == "active"
  {
    if selectedStudent == "" then Rejected(NoStudentSelected)
    else Write(EnrollmentWrite(selectedStudent, courseId, today, "active"))
  }

  // ------------------------------------------------------------ the counts card

  function StatusesOf(es: seq<CourseEnrollment>): (r: seq<string>)
    ensures |r| == |es| && forall i :: 0 <= i < |es| ==> r[i] == es[i].status
  {
    seq(|es|, i requires 0 <= i < |es| => es[i].status)
  }

  datatype Summary = Summary(total: nat, active: nat, locked: nat, completed: nat)

  /** The four figures of the card: all enrollments, then one `filter(...).length` per status. */
  function CourseSummary(es: seq<CourseEnrollment>): (s: Summary)
    ensures s.total == |es|
    ensures s.active == Occurrences(StatusesOf(es), "active")
    ensures s.locked == Occurrences(StatusesOf(es), "locked")
    ensures s.completed == Occurrences(StatusesOf(es), "completed")
  {
    var c := CountStatuses(StatusesOf(es));
    Summary(|es|, c.active, c.locked, c.completed)
  }

  /** The three status figures add up to at most the total, and to the total exactly when
      every enrollment holds a declared status. */
  lemma CourseSummaryFacts(es: seq<CourseEnrollment>)
    ensures var s := CourseSummary(es);
      s.active + s.locked + s.completed <= s.total
      && (s.active + s.locked + s.completed == s.total
          <==> forall i :: 0 <= i < |es| ==> es[i].status in EnrollmentStatuses)
  {
    var st := StatusesOf(es);
    assert (forall s :: s in st ==> s == "active" || s == "locked" || s == "completed")
       <==> (forall i :: 0 <= i < |es| ==> es[i].status in EnrollmentStatuses) by {
      if forall s :: s in st ==> s == "active" || s == "locked" || s == "completed" {
        forall i | 0 <= i < |es| ensures es[i].status in EnrollmentStatuses {
          assert st[i] in st;
        }
      }
    }
  }

  // ------------------------------------------------------------ the attendance modal

  function IsActive(e: CourseEnrollment): bool {
    e.status == "active"
  }

  /** `enrollments.filter(e => e.status === 'active')` */
  function ActiveEnrollments(es: seq<CourseEnrollment>): (r: seq<CourseEnrollment>)
    ensures forall e :: e in r <==> e in es && e.status == "active"
    ensures IsSubsequence(r, es)
  {
    FilterFacts(es, IsActive);
    Filter(es, IsActive)
  }

  /** The modal lists exactly the active enrollments, in order, and as many as the card's
      active figure. */
  lemma ActiveEnrollmentsFacts(es: seq<CourseEnrollment>)
    ensures forall e :: e in ActiveEnrollments(es) <==> e in es && e.status == "active"
    ensures IsSubsequence(ActiveEnrollments(es), es)
    ensures |ActiveEnrollments(es)| == CourseSummary(es).active
  {
    forall e ensures e in ActiveEnrollments(es) <==> e in es && e.status == "active" {
      FilterMembership(es, IsActive, e);
    }
    FilterIsSubsequence(es, IsActive);
    ActiveCount(es);
  }

  lemma ActiveCount(es: seq<CourseEnrollment>)
    ensures |Filter(es, IsActive)| == Occurrences(StatusesOf(es), "active")
  {
    CountWhereIsFilterLength(es, IsActive);
    ActiveCountWhere(es);
  }

  lemma {:induction false} ActiveCountWhere(es: seq<CourseEnrollment>)
    ensures CountWhere(es, IsActive) == Occurrences(StatusesOf(es), "active")
    decreases |es|
  {
    if |es| > 0 {
      var n := |es| - 1;
      var init, e := es[..n], es[n];
      ActiveCountWhere(init);
      assert es == init + [e];
      CountWhereAppend(init, [e], IsActive);
      assert [e][1..] == [];
      var st := StatusesOf(es);
      assert st[..n] == StatusesOf(init);
    }
  }
}
