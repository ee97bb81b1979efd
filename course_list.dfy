/** The course list, `src/pages/courses/CourseList.tsx`: its search filter and the texts of
    three of its columns. */
module CourseList {
  import opened Common

  datatype Course = Course(id: string, name: string, description: string, workloadHours: nat, shift: string, availableSpots: int)

  predicate MatchesSearch(c: Course, term: string) {
    IncludesIgnoringCase(c.name, term) || IncludesIgnoringCase(c.description, term)
  }

  /** The `filteredCourses` predicate: both of its branches return `matchesSearch`. */
  predicate KeepCourse(c: Course, term: string, filter: string) {
    if filter == "all" then MatchesSearch(c, term) else MatchesSearch(c, term)
  }

  /** `filteredCourses`: the courses the predicate keeps, in order. */
  function FilteredCourses(courses: seq<Course>, term: string, filter: string): (r: seq<Course>)
    ensures forall x :: x in r <==> x in courses && KeepCourse(x, term, filter)
    ensures IsSubsequence(r, courses)
  {
    FilterFacts(courses, (c: Course) => KeepCourse(c, term, filter));
    Filter(courses, (c: Course) => KeepCourse(c, term, filter))
  }

  /** A course is kept exactly when its name or description contains the term, ignoring
      case; the filter changes nothing; an empty term keeps every course, in order. */
  lemma FilteredCoursesFacts(courses: seq<Course>, term: string, filter: string, filter': string)
    ensures forall c :: c in FilteredCourses(courses, term, filter) <==> c in courses && MatchesSearch(c, term)
    ensures FilteredCourses(courses, term, filter) == FilteredCourses(courses, term, filter')
    ensures term == "" ==> FilteredCourses(courses, term, filter) == courses
    ensures IsSubsequence(FilteredCourses(courses, term, filter), courses)
  {
    var p := (c: Course) => KeepCourse(c, term, filter);
    forall c ensures c in Filter(courses, p) <==> c in courses && p(c) {
      FilterMembership(courses, p, c);
    }
    FilterExt(courses, p, (c: Course) => KeepCourse(c, term, filter'));
    if term == "" {
      forall i | 0 <= i < |courses| ensures p(courses[i]) {
        IncludesEmpty(Lower(courses[i].name));
      }
      FilterKeepsAll(courses, p);
    }
    FilterIsSubsequence(courses, p);
  }

  const PreviewLength := 50

  /** `description.substring(0, 50) + '...'`, ellipsis included even for short texts. */
  function DescriptionPreview(description: string): (p: string)
    ensures |p| <= PreviewLength + 3
    ensures |description| <= PreviewLength ==> p == description + "..."
    ensures |description| > PreviewLength ==> p == description[..PreviewLength] + "..."
  {
    var n := if |description| < PreviewLength then |description| else PreviewLength;
    description[..n] + "..."
  }

  /** The preview starts with the description's beginning and always ends in the ellipsis. */
  lemma PreviewIsPrefix(description: string)
    ensures var p := DescriptionPreview(description);
      |p| >= 3 && p[|p| - 3..] == "..." && StartsWith(description, p[..|p| - 3])
  {
  }

  /** `${course.workload_hours}h` */
  function WorkloadText(hours: nat): (t: string)
    ensures |t| >= 2 && t[|t| - 1] == 'h'
  {
    NatToString(hours) + "h"
  }

  /** The hours can be read back from the text. */
  lemma WorkloadTextRoundTrip(hours: nat)
    ensures ParseNat(WorkloadText(hours)[..|WorkloadText(hours)| - 1]) == hours
  {
    var t := WorkloadText(hours);
    assert t[..|t| - 1] == NatToString(hours);
    NatToStringRoundTrip(hours);
  }

  /** The shift badge's text. */
  function ShiftText(shift: string): (t: string)
    ensures shift !in ["morning", "afternoon", "evening"] ==> t == shift
  {
    if shift == "morning" then "Manhã"
    else if shift == "afternoon" then "Tarde"
    else if shift == "evening" then "Noite"
    else shift
  }

  /** The three declared shifts get three different Portuguese labels, none of them a shift code. */
  lemma ShiftTextFacts()
    ensures ShiftText("morning") == "Manhã" && ShiftText("afternoon") == "Tarde" && ShiftText("evening") == "Noite"
    ensures forall s :: s in ["morning", "afternoon", "evening"] ==> ShiftText(s) !in ["morning", "afternoon", "evening"]
  {
  }
}
