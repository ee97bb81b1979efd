/** The computations of `src/pages/reports/ReportsList.tsx`: the statistics cards, the
    summaries `handleGenerateReport` attaches to a report, the percentage cells of the
    generated report, the catalogue search and the download file name. */
module Reports {
  import opened Common
  import opened Aggregation

  // ------------------------------------------------------------ average attendance

  predicate IsPresent(status: string) {
    status == "present"
  }

  /** The rounded share of `'present'` rows, 0 for no rows. */
  function AttendancePercent(statuses: seq<string>): (p: nat)
    ensures |statuses| == 0 ==> p == 0
  {
    RoundPercent(CountWhere(statuses, IsPresent), |statuses|)
  }

  /** The `averageAttendance` card: `'0%'` without rows, else the rounded percentage of
      present rows followed by `%`. */
  function AverageAttendance(statuses: seq<string>): (text: string)
    ensures |statuses| == 0 ==> text == "0%"
    ensures text == NatToString(AttendancePercent(statuses)) + "%"
  {
    if |statuses| == 0 then "0%" else NatToString(AttendancePercent(statuses)) + "%"
  }

  /** The percentage shown is the nearest integer to the share of present rows, between
      0 and 100. */
  lemma AttendancePercentFacts(statuses: seq<string>)
    requires |statuses| > 0
    ensures var p, present, n := AttendancePercent(statuses), CountWhere(statuses, IsPresent), |statuses|;
      2 * n * p <= 200 * present + n < 2 * n * (p + 1) && p <= 100
  {
    RoundPercentFacts(CountWhere(statuses, IsPresent), |statuses|);
  }

  /** All present gives `100%`, none present gives `0%`. */
  lemma AverageAttendanceExtremes(statuses: seq<string>)
    requires |statuses| > 0
    ensures (forall i :: 0 <= i < |statuses| ==> IsPresent(statuses[i])) ==> AverageAttendance(statuses) == "100%"
    ensures (forall i :: 0 <= i < |statuses| ==> !IsPresent(statuses[i])) ==> AverageAttendance(statuses) == "0%"
  {
    var n := |statuses|;
    if forall i :: 0 <= i < n ==> IsPresent(statuses[i]) {
      FilterKeepsAll(statuses, IsPresent);
      CountWhereIsFilterLength(statuses, IsPresent);
      RoundPercentFacts(n, n);
      assert NatToString(100) == "100";
    }
    if forall i :: 0 <= i < n ==> !IsPresent(statuses[i]) {
      CountNone(statuses);
      RoundPercentFacts(0, n);
    }
  }

  lemma {:induction false} CountNone(statuses: seq<string>)
    requires forall i :: 0 <= i < |statuses| ==> !IsPresent(statuses[i])
    ensures CountWhere(statuses, IsPresent) == 0
    decreases |statuses|
  {
    if |statuses| > 0 {
      CountNone(statuses[1..]);
    }
  }

  // ------------------------------------------------------------ students per course

  /** One enrollment row as the query returns it: its status and its course's name. */
  datatype EnrollmentRow = EnrollmentRow(status: string, courseName: string)

  /** `r => r.status === 'active' && r.courses.name === n` */
  function ActiveIn(n: string): EnrollmentRow -> bool {
    (r: EnrollmentRow) => r.status == "active" && r.courseName == n
  }

  /** The course names of the rows `.eq('status', 'active')` keeps: a name occurs once per
      active row of that course. */
  function ActiveCourseNames(rows: seq<EnrollmentRow>): (names: seq<string>)
    ensures |names| <= |rows|
    ensures forall n :: n in names <==> exists i :: 0 <= i < |rows| && rows[i].status == "active" && rows[i].courseName == n
    ensures forall n :: Occurrences(names, n) == CountWhere(rows, ActiveIn(n))
  {
    if |rows| == 0 then []
    else
      var rest := ActiveCourseNames(rows[1..]);
      assert forall i :: 0 < i < |rows| ==> rows[i] == rows[1..][i - 1];
      assert forall i :: 0 <= i < |rows| - 1 ==> rows[1..][i] == rows[i + 1];
      if rows[0].status == "active" then
        forall n ensures Occurrences([rows[0].courseName] + rest, n) == CountWhere(rows, ActiveIn(n)) {
          OccurrencesCons(rows[0].courseName, rest, n);
        }
        [rows[0].courseName] + rest
      else rest
  }

  /** `courseStudentCounts`: one `{course_name: key, student_count: count}` entry per
      course, sorted by count, highest first. */
  function CourseStudentCounts(names: seq<string>): (c: seq<Group>)
    ensures SortedByCountDesc(c) && multiset(c) == multiset(Tally(names))
  {
    SortByCountDesc(Tally(names))
  }

  /** `fetchCourseStudentCounts` after the query: the `forEach` that fills `courseCounts`,
      then the sort. */
  method FetchCourseStudentCounts(names: seq<string>) returns (counts: seq<Group>)
    ensures counts == CourseStudentCounts(names)
  {
    var groups := CountAll(names);
    counts := SortByCountDesc(groups);
  }

  lemma TallyDistinctKeys(ks: seq<string>)
    ensures DistinctKeys(Tally(ks))
  {
    TallyFacts(ks);
    var t := Tally(ks);
    assert forall i :: 0 <= i < |t| ==> GroupKeys(t)[i] == t[i].key;
  }

  /** One entry per distinct course name, with that name's number of rows, the counts adding
      up to the number of rows and in non-increasing order. */
  lemma CourseStudentCountsFacts(names: seq<string>)
    ensures var c := CourseStudentCounts(names);
      DistinctKeys(c) && SortedByCountDesc(c) && Total(c) == |names|
      && (forall n :: n in names <==> exists j :: 0 <= j < |c| && c[j].key == n)
      && (forall j :: 0 <= j < |c| ==> c[j].count == Occurrences(names, c[j].key))
  {
    var t := Tally(names);
    TallyDistinctKeys(names);
    SortKeepsDistinctKeys(t);
    SortKeepsTotal(t);
    TallyTotal(names);
    CourseStudentCountsEntries(names);
  }

  /** The sorted entries are the tally's groups: one per distinct name, with its count. */
  lemma CourseStudentCountsEntries(names: seq<string>)
    ensures var c := CourseStudentCounts(names);
      (forall n :: n in names <==> exists j :: 0 <= j < |c| && c[j].key == n)
      && (forall j :: 0 <= j < |c| ==> c[j].count == Occurrences(names, c[j].key))
  {
    var c := CourseStudentCounts(names);
    forall j | 0 <= j < |c| ensures c[j].key in names && c[j].count == Occurrences(names, c[j].key) {
      EntryFromTally(names, j);
    }
    forall n | n in names ensures exists j :: 0 <= j < |c| && c[j].key == n {
      TallyToEntry(names, n);
    }
  }

  lemma EntryFromTally(names: seq<string>, j: int)
    requires 0 <= j < |CourseStudentCounts(names)|
    ensures var g := CourseStudentCounts(names)[j];
      g.key in names && g.count == Occurrences(names, g.key)
  {
    var t := Tally(names);
    var g := CourseStudentCounts(names)[j];
    assert g in multiset(CourseStudentCounts(names));
    assert g in t;
    var m :| 0 <= m < |t| && t[m] == g;
    TallyFacts(names);
    assert GroupKeys(t)[m] == g.key;
  }

  lemma TallyToEntry(names: seq<string>, n: string)
    requires n in names
    ensures exists j :: 0 <= j < |CourseStudentCounts(names)| && CourseStudentCounts(names)[j].key == n
  {
    var t := Tally(names);
    var c := CourseStudentCounts(names);
    TallyFacts(names);
    assert n in GroupKeys(t);
    var m :| 0 <= m < |t| && GroupKeys(t)[m] == n;
    assert t[m] in multiset(c);
    var k :| 0 <= k < |c| && c[k] == t[m];
    assert c[k].key == n;
  }

  // ------------------------------------------------------------ status and type counts

  const EnrollmentStatuses: seq<string> := ["active", "locked", "completed"]

  /** `statusCounts`: the number of rows holding each declared enrollment status. */
  datatype StatusCounts = StatusCounts(active: nat, locked: nat, completed: nat)

  /** One `filter(...).length` per declared status: the three counts add up to at most the
      number of rows, and to exactly that number when every status is a declared one. */
  function CountStatuses(statuses: seq<string>): (c: StatusCounts)
    ensures c.active + c.locked + c.completed <= |statuses|
    ensures c.active + c.locked + c.completed == |statuses|
            <==> forall s :: s in statuses ==> s == "active" || s == "locked" || s == "completed"
  {
    LabelTotalThree(statuses, EnrollmentStatuses);
    LabelTotalBound(statuses, EnrollmentStatuses);
    StatusCounts(Occurrences(statuses, "active"), Occurrences(statuses, "locked"),
                 Occurrences(statuses, "completed"))
  }

  const HealthTypes: seq<string> := ["dental", "psychological", "nutritional", "medical"]

  /** `typeCounts` of the health-specialty report. */
  datatype TypeCounts = TypeCounts(dental: nat, psychological: nat, nutritional: nat, medical: nat)

  function TypeTotal(c: TypeCounts): nat {
    c.dental + c.psychological + c.nutritional + c.medical
  }

  /** One `filter(...).length` per record type: the four counts add up to at most the
      number of records, and to exactly that number when every type is a declared one. */
  function CountTypes(types: seq<string>): (c: TypeCounts)
    ensures TypeTotal(c) <= |types|
    ensures TypeTotal(c) == |types|
            <==> forall s :: s in types ==> s == "dental" || s == "psychological" || s == "nutritional" || s == "medical"
  {
    LabelTotalFour(types, HealthTypes);
    LabelTotalBound(types, HealthTypes);
    TypeCounts(Occurrences(types, "dental"), Occurrences(types, "psychological"),
               Occurrences(types, "nutritional"), Occurrences(types, "medical"))
  }

  /** The percentage cells of the health table, guarded by `total > 0`: each is at most
      100, and all four are 0 when there are no records of the four types. */
  lemma TypePercentages(types: seq<string>)
    ensures var c := CountTypes(types); var t := TypeTotal(c);
      RoundPercent(c.dental, t) <= 100 && RoundPercent(c.psychological, t) <= 100
      && RoundPercent(c.nutritional, t) <= 100 && RoundPercent(c.medical, t) <= 100
      && (t == 0 ==> RoundPercent(c.dental, t) == 0 && RoundPercent(c.psychological, t) == 0
                     && RoundPercent(c.nutritional, t) == 0 && RoundPercent(c.medical, t) == 0)
  {
    var c := CountTypes(types);
    var t := TypeTotal(c);
    PercentOfPart(c.dental, t);
    PercentOfPart(c.psychological, t);
    PercentOfPart(c.nutritional, t);
    PercentOfPart(c.medical, t);
  }

  // ------------------------------------------------------------ age bands

  /** `ageGroups` of the age-distribution report. */
  datatype AgeGroups = AgeGroups(children: nat, teens: nat, adults: nat)

  /** For integer ages the three bands cover every student exactly once. */
  function AgeBands(ages: seq<int>): (g: AgeGroups)
    ensures g.children + g.teens + g.adults == |ages|
    decreases |ages|
  {
    if |ages| == 0 then AgeGroups(0, 0, 0)
    else
      var rest := AgeBands(ages[1..]);
      var a := ages[0];
      AgeGroups(rest.children + (if a <= 12 then 1 else 0),
                rest.teens + (if a > 12 && a <= 17 then 1 else 0),
                rest.adults + (if a >= 18 then 1 else 0))
  }

  /** Each band counts exactly the ages in its range: `0-12` is `age <= 12`, `13-17` is
      `12 < age <= 17`, `18+` is `age >= 18`. */
  lemma {:induction false} AgeBandsCount(ages: seq<int>)
    ensures AgeBands(ages).children == CountWhere(ages, (a: int) => a <= 12)
    ensures AgeBands(ages).teens == CountWhere(ages, (a: int) => a > 12 && a <= 17)
    ensures AgeBands(ages).adults == CountWhere(ages, (a: int) => a >= 18)
    decreases |ages|
  {
    if |ages| > 0 {
      AgeBandsCount(ages[1..]);
    }
  }

  // ------------------------------------------------------------ attendance per course

  /** One attendance row as the query returns it: its status and its course's name. */
  datatype AttendanceRow = AttendanceRow(courseName: string, status: string)

  /** One entry of `courseAttendance`. */
  datatype CourseAttendance = CourseAttendance(courseName: string, present: nat, absent: nat)

  function RowCourses(rows: seq<AttendanceRow>): (names: seq<string>)
    ensures |names| == |rows| && forall i :: 0 <= i < |rows| ==> names[i] == rows[i].courseName
  {
    seq(|rows|, i requires 0 <= i < |rows| => rows[i].courseName)
  }

  /** Rows of course `c` with status `'present'`. */
  function Presences(rows: seq<AttendanceRow>, c: string): nat {
    if |rows| == 0 then 0
    else Presences(rows[..|rows| - 1], c)
         + (if rows[|rows| - 1].courseName == c && rows[|rows| - 1].status == "present" then 1 else 0)
  }

  /** Rows of course `c` with any other status. */
  function Absences(rows: seq<AttendanceRow>, c: string): nat {
    if |rows| == 0 then 0
    else Absences(rows[..|rows| - 1], c)
         + (if rows[|rows| - 1].courseName == c && rows[|rows| - 1].status != "present" then 1 else 0)
  }

  /** The reference: one entry per course in order of first occurrence. */
  function CourseAttendanceOf(rows: seq<AttendanceRow>): (e: seq<CourseAttendance>)
    ensures forall j :: 0 <= j < |e| ==> e[j].courseName in RowCourses(rows)
    ensures forall j, k :: 0 <= j < k < |e| ==> e[j].courseName != e[k].courseName
  {
    var d := Distinct(RowCourses(rows));
    seq(|d|, j requires 0 <= j < |d| => CourseAttendance(d[j], Presences(rows, d[j]), Absences(rows, d[j])))
  }

  /** The entry `r` adds to. */
  function Bumped(e: CourseAttendance, r: AttendanceRow): CourseAttendance {
    if r.status == "present" then e.(present := e.present + 1) else e.(absent := e.absent + 1)
  }

  lemma RowsStep(rows: seq<AttendanceRow>, r: AttendanceRow)
    ensures RowCourses(rows + [r]) == RowCourses(rows) + [r.courseName]
    ensures (rows + [r])[..|rows|] == rows
  {
  }

  /** A row of a course already listed updates that course's entry. */
  lemma AttendanceStepOld(rows: seq<AttendanceRow>, r: AttendanceRow, p: int)
    requires 0 <= p < |CourseAttendanceOf(rows)| && CourseAttendanceOf(rows)[p].courseName == r.courseName
    ensures CourseAttendanceOf(rows + [r]) == CourseAttendanceOf(rows)[p := Bumped(CourseAttendanceOf(rows)[p], r)]
  {
    RowsStep(rows, r);
    var ks := RowCourses(rows);
    var ks' := ks + [r.courseName];
    assert ks'[..|ks'| - 1] == ks;
    var d := Distinct(ks);
    assert r.courseName in ks by { assert d[p] == r.courseName; }
    assert Distinct(ks') == d;
    forall j | 0 <= j < |d| && j != p ensures d[j] != r.courseName {
      assert d[j] != d[p];
    }
  }

  /** A row of a new course appends its entry. */
  lemma AttendanceStepNew(rows: seq<AttendanceRow>, r: AttendanceRow)
    requires r.courseName !in RowCourses(rows)
    ensures CourseAttendanceOf(rows + [r])
         == CourseAttendanceOf(rows) + [Bumped(CourseAttendance(r.courseName, 0, 0), r)]
  {
    RowsStep(rows, r);
    var ks := RowCourses(rows);
    var ks' := ks + [r.courseName];
    assert ks'[..|ks'| - 1] == ks;
    var d := Distinct(ks);
    assert Distinct(ks') == d + [r.courseName];
    var e, e' := CourseAttendanceOf(rows), CourseAttendanceOf(rows + [r]);
    forall j | 0 <= j < |d| ensures e'[j] == e[j] {
      assert d[j] in ks;
    }
    ZeroCounts(rows, r.courseName);
    assert e'[|d|] == Bumped(CourseAttendance(r.courseName, 0, 0), r);
  }

  /** The state of the `forEach` after `rows`: the entries so far and where each course's
      entry sits. */
  ghost predicate SlotInv(entries: seq<CourseAttendance>, slot: map<string, nat>, rows: seq<AttendanceRow>) {
    entries == CourseAttendanceOf(rows)
    && (forall c :: c in slot <==> c in RowCourses(rows))
    && (forall c :: c in slot ==> slot[c] < |entries| && entries[slot[c]].courseName == c)
  }

  lemma SlotStepOld(entries: seq<CourseAttendance>, slot: map<string, nat>, rows: seq<AttendanceRow>, r: AttendanceRow)
    requires SlotInv(entries, slot, rows) && r.courseName in slot
    ensures SlotInv(entries[slot[r.courseName] := Bumped(entries[slot[r.courseName]], r)], slot, rows + [r])
  {
    RowsStep(rows, r);
    AttendanceStepOld(rows, r, slot[r.courseName]);
  }

  lemma SlotStepNew(entries: seq<CourseAttendance>, slot: map<string, nat>, rows: seq<AttendanceRow>, r: AttendanceRow)
    requires SlotInv(entries, slot, rows) && r.courseName !in slot
    ensures SlotInv(entries + [Bumped(CourseAttendance(r.courseName, 0, 0), r)],
                    slot[r.courseName := |entries|], rows + [r])
  {
    RowsStep(rows, r);
    AttendanceStepNew(rows, r);
  }

  /** The `forEach` that fills `courseAttendance`. */
  method CountCourseAttendance(rows: seq<AttendanceRow>) returns (entries: seq<CourseAttendance>)
    ensures entries == CourseAttendanceOf(rows)
  {
    entries := [];
    var slot: map<string, nat> := map[];
    var i := 0;
    while i < |rows|
      invariant 0 <= i <= |rows|
      invariant SlotInv(entries, slot, rows[..i])
    {
      var r := rows[i];
      assert rows[..i + 1] == rows[..i] + [r];
      if r.courseName in slot {
        SlotStepOld(entries, slot, rows[..i], r);
        var p := slot[r.courseName];
        entries := entries[p := Bumped(entries[p], r)];
      } else {
        SlotStepNew(entries, slot, rows[..i], r);
        entries, slot := entries + [Bumped(CourseAttendance(r.courseName, 0, 0), r)], slot[r.courseName := |entries|];
      }
      i := i + 1;
    }
    assert rows[..|rows|] == rows;
  }

  /** A course without rows has no presences and no absences. */
  lemma {:induction false} ZeroCounts(rows: seq<AttendanceRow>, c: string)
    requires c !in RowCourses(rows)
    ensures Presences(rows, c) == 0 && Absences(rows, c) == 0
    decreases |rows|
  {
    if |rows| > 0 {
      var init := rows[..|rows| - 1];
      assert RowCourses(rows)[..|rows| - 1] == RowCourses(init);
      assert RowCourses(rows)[|rows| - 1] == rows[|rows| - 1].courseName;
      ZeroCounts(init, c);
    }
  }

  /** Every row counts once for its course: anything but `'present'` is an absence, so
      `present + absent` is the course's number of rows. */
  lemma {:induction false} PresentPlusAbsent(rows: seq<AttendanceRow>, c: string)
    ensures Presences(rows, c) + Absences(rows, c) == Occurrences(RowCourses(rows), c)
    decreases |rows|
  {
    if |rows| > 0 {
      var init := rows[..|rows| - 1];
      assert RowCourses(rows)[..|rows| - 1] == RowCourses(init);
      PresentPlusAbsent(init, c);
    }
  }

  /** The entries name each course of the rows exactly once, and each entry's two numbers
      add up to the course's number of rows. */
  lemma CourseAttendanceFacts(rows: seq<AttendanceRow>)
    ensures var e := CourseAttendanceOf(rows);
      (forall c :: c in RowCourses(rows) <==> exists j :: 0 <= j < |e| && e[j].courseName == c)
      && (forall j, k :: 0 <= j < k < |e| ==> e[j].courseName != e[k].courseName)
      && (forall j :: 0 <= j < |e| ==>
            e[j].present + e[j].absent == Occurrences(RowCourses(rows), e[j].courseName))
  {
    var e := CourseAttendanceOf(rows);
    var d := Distinct(RowCourses(rows));
    forall c ensures c in RowCourses(rows) <==> exists j :: 0 <= j < |e| && e[j].courseName == c {
      if c in RowCourses(rows) {
        var j :| 0 <= j < |d| && d[j] == c;
        assert e[j].courseName == c;
      }
    }
    forall j | 0 <= j < |e|
      ensures e[j].present + e[j].absent == Occurrences(RowCourses(rows), e[j].courseName)
    {
      PresentPlusAbsent(rows, d[j]);
    }
  }

  // ------------------------------------------------------------ needs

  /** All the needs of all the records, in order. */
  function Flatten(needs: seq<seq<string>>): (r: seq<string>) {
    if |needs| == 0 then [] else Flatten(needs[..|needs| - 1]) + needs[|needs| - 1]
  }

  function NeedCount(needs: seq<seq<string>>): nat {
    if |needs| == 0 then 0 else NeedCount(needs[..|needs| - 1]) + |needs[|needs| - 1]|
  }

  lemma {:induction false} FlattenLength(needs: seq<seq<string>>)
    ensures |Flatten(needs)| == NeedCount(needs)
    decreases |needs|
  {
    if |needs| > 0 {
      FlattenLength(needs[..|needs| - 1]);
    }
  }

  /** A need occurs in the flattened list exactly when some record lists it. */
  lemma {:induction false} FlattenMembers(needs: seq<seq<string>>, n: string)
    ensures n in Flatten(needs) <==> exists i :: 0 <= i < |needs| && n in needs[i]
    decreases |needs|
  {
    if |needs| > 0 {
      var init := needs[..|needs| - 1];
      FlattenMembers(init, n);
      if exists i :: 0 <= i < |needs| && n in needs[i] {
        var i :| 0 <= i < |needs| && n in needs[i];
        if i < |needs| - 1 {
          assert init[i] == needs[i];
        }
      }
      if exists i :: 0 <= i < |init| && n in init[i] {
        var i :| 0 <= i < |init| && n in init[i];
        assert needs[i] == init[i];
      }
    }
  }

  /** One more record appends its needs. */
  lemma FlattenStep(needs: seq<seq<string>>, i: int)
    requires 0 <= i < |needs|
    ensures Flatten(needs[..i + 1]) == Flatten(needs[..i]) + needs[i]
  {
    assert needs[..i + 1][..i] == needs[..i];
  }

  /** The nested `forEach` that fills `needCounts`. */
  method CountNeeds(needs: seq<seq<string>>) returns (counts: seq<Group>)
    ensures counts == Tally(Flatten(needs))
  {
    var c := new Counter();
    var i := 0;
    while i < |needs|
      invariant 0 <= i <= |needs|
      invariant c.Valid() && c.seen == Flatten(needs[..i])
    {
      var j := 0;
      while j < |needs[i]|
        invariant 0 <= j <= |needs[i]|
        invariant c.Valid() && c.seen == Flatten(needs[..i]) + needs[i][..j]
      {
        assert needs[i][..j + 1] == needs[i][..j] + [needs[i][j]];
        c.Add(needs[i][j]);
        j := j + 1;
      }
      assert needs[i][..|needs[i]|] == needs[i];
      FlattenStep(needs, i);
      i := i + 1;
    }
    assert needs[..|needs|] == needs;
    counts := c.groups;
  }

  /** Only needs that occur get an entry, each once, and the entries add up to the total
      number of needs; so in the table of needs, where the share is computed without a
      zero guard, the divisor is never 0. */
  lemma NeedCountsFacts(needs: seq<seq<string>>)
    ensures var t := Tally(Flatten(needs));
      Total(t) == NeedCount(needs)
      && DistinctKeys(t)
      && (forall j :: 0 <= j < |t| ==> exists i :: 0 <= i < |needs| && t[j].key in needs[i])
      && (forall j :: 0 <= j < |t| ==> 0 < t[j].count <= Total(t))
  {
    var f := Flatten(needs);
    var t := Tally(f);
    TallyTotal(f);
    FlattenLength(needs);
    TallyFacts(f);
    TallyDistinctKeys(f);
    forall j | 0 <= j < |t| ensures exists i :: 0 <= i < |needs| && t[j].key in needs[i] {
      assert t[j].key in GroupKeys(t);
      FlattenMembers(needs, t[j].key);
    }
    forall j | 0 <= j < |t| ensures t[j].count <= Total(t) {
      CountAtMostTotal(t, j);
    }
  }

  lemma {:induction false} CountAtMostTotal(g: seq<Group>, j: int)
    requires 0 <= j < |g|
    ensures g[j].count <= Total(g)
    decreases |g|
  {
    if j < |g| - 1 {
      CountAtMostTotal(g[..|g| - 1], j);
    }
  }

  // ------------------------------------------------------------ catalogue search

  datatype Report = Report(id: string, name: string, reportType: string, category: string, description: string)

  datatype Category = Category(title: string, id: string, reports: seq<Report>)

  /** `matchesSearch`; a falsy `description` (`''`) is skipped. */
  predicate MatchesSearch(r: Report, term: string): (m: bool)
    ensures term == "" ==> m
    ensures IncludesIgnoringCase(r.name, term) ==> m
    ensures r.description == "" ==> (m <==> term == "" || IncludesIgnoringCase(r.name, term))
  {
    term == "" || IncludesIgnoringCase(r.name, term)
    || (r.description != "" && IncludesIgnoringCase(r.description, term))
  }

  /** `matchesCategory` */
  predicate MatchesCategory(c: Category, selected: string) {
    selected == "all" || c.id == selected
  }

  function NarrowCategory(c: Category, term: string, selected: string): (r: Category)
    ensures r.title == c.title && r.id == c.id
    ensures forall x :: x in r.reports <==> x in c.reports && MatchesSearch(x, term) && MatchesCategory(c, selected)
  {
    forall x ensures x in Filter(c.reports, (x: Report) => MatchesSearch(x, term) && MatchesCategory(c, selected))
                     <==> x in c.reports && MatchesSearch(x, term) && MatchesCategory(c, selected) {
      FilterMembership(c.reports, (x: Report) => MatchesSearch(x, term) && MatchesCategory(c, selected), x);
    }
    c.(reports := Filter(c.reports, (x: Report) => MatchesSearch(x, term) && MatchesCategory(c, selected)))
  }

  /** The `.map` step: every category with its reports narrowed. */
  function Narrowed(cats: seq<Category>, term: string, selected: string): (r: seq<Category>)
    ensures |r| == |cats| && forall i :: 0 <= i < |cats| ==> r[i] == NarrowCategory(cats[i], term, selected)
  {
    seq(|cats|, i requires 0 <= i < |cats| => NarrowCategory(cats[i], term, selected))
  }

  predicate HasReports(c: Category) {
    |c.reports| > 0
  }

  /** `filteredCategories` */
  function FilteredCategories(cats: seq<Category>, term: string, selected: string): (r: seq<Category>)
    ensures forall c :: c in r <==> c in Narrowed(cats, term, selected) && |c.reports| > 0
    ensures IsSubsequence(r, Narrowed(cats, term, selected))
  {
    FilterFacts(Narrowed(cats, term, selected), HasReports);
    Filter(Narrowed(cats, term, selected), HasReports)
  }

  /** A report is listed under its category exactly when it matches the search and the
      category filter; no listed category is empty, and every listed category is one of
      the catalogue's. */
  lemma FilteredCategoriesFacts(cats: seq<Category>, term: string, selected: string)
    ensures var r := FilteredCategories(cats, term, selected);
      (forall c :: c in r ==> |c.reports| > 0 && MatchesCategory(c, selected))
      && (forall c, x :: c in r && x in c.reports ==> MatchesSearch(x, term))
      && (forall i, x :: 0 <= i < |cats| && x in cats[i].reports && MatchesSearch(x, term)
                         && MatchesCategory(cats[i], selected) ==>
            NarrowCategory(cats[i], term, selected) in r && x in NarrowCategory(cats[i], term, selected).reports)
      && (forall c :: c in r ==> exists i :: 0 <= i < |cats| && c == NarrowCategory(cats[i], term, selected))
  {
    var mapped := Narrowed(cats, term, selected);
    forall c ensures c in FilteredCategories(cats, term, selected) <==> c in mapped && HasReports(c) {
      FilterMembership(mapped, HasReports, c);
    }
    forall c | c in FilteredCategories(cats, term, selected) ensures MatchesCategory(c, selected) {
      var i :| 0 <= i < |mapped| && mapped[i] == c;
      assert c.reports[0] in c.reports;
    }
    forall i, x | 0 <= i < |cats| && x in cats[i].reports && MatchesSearch(x, term) && MatchesCategory(cats[i], selected)
      ensures NarrowCategory(cats[i], term, selected) in FilteredCategories(cats, term, selected)
    {
      assert mapped[i] == NarrowCategory(cats[i], term, selected);
    }
  }

  /** An empty search under `'all'` lists every category that has reports, unchanged. */
  lemma EmptySearchListsAll(cats: seq<Category>)
    requires forall i :: 0 <= i < |cats| ==> |cats[i].reports| > 0
    ensures FilteredCategories(cats, "", "all") == cats
  {
    var mapped := Narrowed(cats, "", "all");
    forall i | 0 <= i < |cats| ensures mapped[i] == cats[i] {
      var c := cats[i];
      FilterKeepsAll(c.reports, (x: Report) => MatchesSearch(x, "") && MatchesCategory(c, "all"));
    }
    assert mapped == cats;
    FilterKeepsAll(mapped, HasReports);
  }

  // ------------------------------------------------------------ download file name

  /** The characters JavaScript's `\s` matches: the ASCII white space, the no-break space,
      the Unicode space separators, the line and paragraph separators and the byte order
      mark. */
  predicate IsSpace(c: char) {
    var n := c as int;
    (9 <= n <= 13) || n == 0x20 || n == 0xA0 || n == 0x1680 || (0x2000 <= n <= 0x200A)
    || n == 0x2028 || n == 0x2029 || n == 0x202F || n == 0x205F || n == 0x3000 || n == 0xFEFF
  }

  /** The leading run of spaces removed. */
  function DropSpaces(s: string): (r: string)
    ensures |r| <= |s| && (|r| > 0 ==> !IsSpace(r[0]))
    ensures r == s[|s| - |r|..]
  {
    if |s| > 0 && IsSpace(s[0]) then DropSpaces(s[1..]) else s
  }

  /** `s.replace(/\s+/g, '_')`: each maximal run of whitespace becomes one `_`. */
  function UnderscoreSpaces(s: string): (r: string)
    ensures forall i :: 0 <= i < |r| ==> !IsSpace(r[i])
    decreases |s|
  {
    if |s| == 0 then ""
    else if IsSpace(s[0]) then "_" + UnderscoreSpaces(DropSpaces(s))
    else [s[0]] + UnderscoreSpaces(s[1..])
  }

  /** Dropping the leading spaces of a run followed by a non-space skips the whole run. */
  lemma {:induction false} DropSpacesRun(w: string, b: string)
    requires forall i :: 0 <= i < |w| ==> IsSpace(w[i])
    requires |b| == 0 || !IsSpace(b[0])
    ensures DropSpaces(w + b) == b
    decreases |w|
  {
    if |w| == 0 {
      assert w + b == b;
    } else {
      assert (w + b)[1..] == w[1..] + b;
      DropSpacesRun(w[1..], b);
    }
  }

  /** Each maximal run of whitespace becomes exactly one `_`, and the text before it is
      kept: a run `w` after a space-free `a` and before a non-space gives `a + "_"`. */
  lemma {:induction false} UnderscoreSpacesRun(a: string, w: string, b: string)
    requires forall i :: 0 <= i < |a| ==> !IsSpace(a[i])
    requires |w| > 0 && forall i :: 0 <= i < |w| ==> IsSpace(w[i])
    requires |b| == 0 || !IsSpace(b[0])
    ensures UnderscoreSpaces(a + w + b) == a + "_" + UnderscoreSpaces(b)
    decreases |a|
  {
    if |a| == 0 {
      assert a + w + b == w + b;
      DropSpacesRun(w, b);
    } else {
      var rest := a[1..] + w + b;
      assert a + w + b == [a[0]] + rest;
      assert !IsSpace(a[0]);
      assert UnderscoreSpaces([a[0]] + rest) == [a[0]] + UnderscoreSpaces(rest) by {
        assert ([a[0]] + rest)[1..] == rest;
      }
      UnderscoreSpacesRun(a[1..], w, b);
      assert a + "_" + UnderscoreSpaces(b) == [a[0]] + (a[1..] + "_" + UnderscoreSpaces(b));
    }
  }

  /** A title without whitespace is kept as it is. */
  lemma {:induction false} UnderscoreSpacesNoSpace(s: string)
    requires forall i :: 0 <= i < |s| ==> !IsSpace(s[i])
    ensures UnderscoreSpaces(s) == s
    decreases |s|
  {
    if |s| > 0 {
      UnderscoreSpacesNoSpace(s[1..]);
    }
  }

  /** Replacing the runs keeps every other character, in order. */
  lemma {:induction false} UnderscoreSpacesKeepsText(s: string)
    ensures Filter(UnderscoreSpaces(s), (c: char) => c != '_')
         == Filter(s, (c: char) => !IsSpace(c) && c != '_')
    decreases |s|
  {
    var p := (c: char) => c != '_';
    var q := (c: char) => !IsSpace(c) && c != '_';
    if |s| > 0 {
      if IsSpace(s[0]) {
        var t := DropSpaces(s);
        UnderscoreSpacesKeepsText(t);
        DropSpacesFilter(s);
        assert ("_" + UnderscoreSpaces(t))[1..] == UnderscoreSpaces(t);
      } else {
        UnderscoreSpacesKeepsText(s[1..]);
        assert ([s[0]] + UnderscoreSpaces(s[1..]))[1..] == UnderscoreSpaces(s[1..]);
      }
    }
  }

  lemma {:induction false} DropSpacesFilter(s: string)
    ensures Filter(DropSpaces(s), (c: char) => !IsSpace(c) && c != '_')
         == Filter(s, (c: char) => !IsSpace(c) && c != '_')
    decreases |s|
  {
    if |s| > 0 && IsSpace(s[0]) {
      DropSpacesFilter(s[1..]);
    }
  }

  /** `${title.replace(/\s+/g, '_').toLowerCase()}_${isoDate}.md` */
  function ReportFileName(title: string, isoDate: string): (name: string)
    ensures |name| >= 4 && name[|name| - 3..] == ".md"
  {
    Lower(UnderscoreSpaces(title)) + "_" + isoDate + ".md"
  }

  /** The name is the lower-cased title with its whitespace runs turned into `_`, then
      `_`, then the date, then `.md`; it has no whitespace when the date has none. */
  lemma ReportFileNameFacts(title: string, isoDate: string)
    ensures var name, head := ReportFileName(title, isoDate), Lower(UnderscoreSpaces(title));
      |name| == |head| + 1 + |isoDate| + 3
      && name[..|head| + 1] == head + "_"
      && name[|head| + 1..|name| - 3] == isoDate
      && name[|name| - 3..] == ".md"
    ensures (forall i :: 0 <= i < |isoDate| ==> !IsSpace(isoDate[i])) ==>
      var name := ReportFileName(title, isoDate); forall i :: 0 <= i < |name| ==> !IsSpace(name[i])
  {
    var head := Lower(UnderscoreSpaces(title));
    var front, back := head + "_", isoDate + ".md";
    var name := ReportFileName(title, isoDate);
    assert name == front + back;
    assert name[..|front|] == front;
    assert name[|front|..] == back;
    assert back[..|isoDate|] == isoDate;
    assert name[|front|..|name| - 3] == back[..|isoDate|];
    if forall i :: 0 <= i < |isoDate| ==> !IsSpace(isoDate[i]) {
      LowerNoSpace(UnderscoreSpaces(title));
      SeparatorsNoSpace();
      NoSpaceConcat(head, "_");
      NoSpaceConcat(isoDate, ".md");
      NoSpaceConcat(front, back);
    }
  }

  /** The separator and the extension hold no whitespace. */
  lemma SeparatorsNoSpace()
    ensures forall i :: 0 <= i < |"_"| ==> !IsSpace("_"[i])
    ensures forall i :: 0 <= i < |".md"| ==> !IsSpace(".md"[i])
  {
    var ext := ".md";
    assert ext[0] == '.' && ext[1] == 'm' && ext[2] == 'd';
  }

  /** Two texts without whitespace make one without whitespace. */
  lemma NoSpaceConcat(x: string, y: string)
    requires forall i :: 0 <= i < |x| ==> !IsSpace(x[i])
    requires forall i :: 0 <= i < |y| ==> !IsSpace(y[i])
    ensures forall i :: 0 <= i < |x + y| ==> !IsSpace((x + y)[i])
  {
    forall i | 0 <= i < |x + y| ensures !IsSpace((x + y)[i]) {
      if i >= |x| {
        assert (x + y)[i] == y[i - |x|];
      }
    }
  }

  /** Lower-casing creates no whitespace. */
  lemma LowerNoSpace(s: string)
    requires forall i :: 0 <= i < |s| ==> !IsSpace(s[i])
    ensures forall i :: 0 <= i < |Lower(s)| ==> !IsSpace(Lower(s)[i])
  {
    forall i | 0 <= i < |s| ensures !IsSpace(Lower(s)[i]) {
      assert !IsSpace(s[i]);
    }
  }
}
