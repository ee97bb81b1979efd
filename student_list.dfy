/** The student list, `src/pages/students/StudentList.tsx`: its search filter. */
module StudentList {
  import opened Common

  datatype Student = Student(id: string, fullName: string, cpf: string, email: string, phone: string, age: int)

  /** `matchesSearch`: name or email ignoring case, or the CPF exactly as typed. */
  predicate MatchesSearch(s: Student, term: string) {
    IncludesIgnoringCase(s.fullName, term) || Includes(s.cpf, term) || IncludesIgnoringCase(s.email, term)
  }

  /** The `filteredStudents` predicate: both of its branches return `matchesSearch`. */
  predicate KeepStudent(s: Student, term: string, filter: string) {
    if filter == "all" then MatchesSearch(s, term) else MatchesSearch(s, term)
  }

  /** `filteredStudents`: the students the predicate keeps, in order. */
  function FilteredStudents(students: seq<Student>, term: string, filter: string): (r: seq<Student>)
    ensures forall x :: x in r <==> x in students && KeepStudent(x, term, filter)
    ensures IsSubsequence(r, students)
  {
    FilterFacts(students, (s: Student) => KeepStudent(s, term, filter));
    Filter(students, (s: Student) => KeepStudent(s, term, filter))
  }

  /** A student is kept exactly when the search matches; the status filter changes nothing;
      an empty term keeps everyone; the list order is kept. */
  lemma FilteredStudentsFacts(students: seq<Student>, term: string, filter: string, filter': string)
    ensures forall s :: s in FilteredStudents(students, term, filter) <==> s in students && MatchesSearch(s, term)
    ensures FilteredStudents(students, term, filter) == FilteredStudents(students, term, filter')
    ensures term == "" ==> FilteredStudents(students, term, filter) == students
    ensures IsSubsequence(FilteredStudents(students, term, filter), students)
  {
    var p := (s: Student) => KeepStudent(s, term, filter);
    forall s ensures s in Filter(students, p) <==> s in students && p(s) {
      FilterMembership(students, p, s);
    }
    FilterExt(students, p, (s: Student) => KeepStudent(s, term, filter'));
    if term == "" {
      forall i | 0 <= i < |students| ensures p(students[i]) {
        IncludesEmpty(Lower(students[i].fullName));
      }
      FilterKeepsAll(students, p);
    }
    FilterIsSubsequence(students, p);
  }

  /** The name and email parts of the search ignore the case of the term. */
  lemma SearchIgnoresTermCase(s: Student, term: string)
    ensures IncludesIgnoringCase(s.fullName, term) <==> IncludesIgnoringCase(s.fullName, Lower(term))
    ensures IncludesIgnoringCase(s.email, term) <==> IncludesIgnoringCase(s.email, Lower(term))
  {
    LowerIdempotent(term);
  }
}
