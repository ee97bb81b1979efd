/** The logic of `src/pages/Dashboard.tsx` that is not a query: the average attendance of
    the statistics card, the students-per-course list, the recent-activity feed, the event
    modal (`handleOpenEventModal`, `handleSaveEvent`) and the report dispatch of
    `handleGenerateReport`. The first two are the same code as on the reports page and are
    specified by `Reports.AverageAttendance` and `Reports.CourseStudentCounts`. */
module Dashboard {
  import opened Common
  import Aggregation
  import Reports

  // ------------------------------------------------------------ statistics

  /** The `averageAttendance` of `fetchDashboardData`: `'0%'`, replaced by the rounded
      percentage of present rows when there are rows. */
  method DashboardAverage(statuses: seq<string>) returns (text: string)
    ensures text == Reports.AverageAttendance(statuses)
  {
    text := "0%";
    if |statuses| > 0 {
      var presentCount := |Filter(statuses, Reports.IsPresent)|;
      CountWhereIsFilterLength(statuses, Reports.IsPresent);
      text := NatToString(Aggregation.RoundPercent(presentCount, |statuses|)) + "%";
    }
  }

  // ------------------------------------------------------------ students per course

  function IsActiveRow(r: Reports.EnrollmentRow): bool {
    r.status == "active"
  }

  /** `fetchCourseStudentCounts` of the dashboard: the `.eq('status', 'active')` of the
      query, the `forEach` that fills `courseCounts`, then the sort. */
  method FetchCourseStudentCounts(rows: seq<Reports.EnrollmentRow>) returns (counts: seq<Aggregation.Group>)
    ensures counts == Reports.CourseStudentCounts(Reports.ActiveCourseNames(rows))
  {
    counts := Reports.FetchCourseStudentCounts(Reports.ActiveCourseNames(rows));
  }

  lemma {:induction false} ActiveNamesCount(rows: seq<Reports.EnrollmentRow>)
    ensures |Reports.ActiveCourseNames(rows)| == CountWhere(rows, IsActiveRow)
    decreases |rows|
  {
    if |rows| > 0 {
      ActiveNamesCount(rows[1..]);
    }
  }

  /** One entry per course that has an active enrollment, holding that course's number of
      active enrollments; the counts add up to the number of active enrollments, highest
      count first. */
  lemma CourseCountsOfRows(rows: seq<Reports.EnrollmentRow>)
    ensures var c := Reports.CourseStudentCounts(Reports.ActiveCourseNames(rows));
      Aggregation.DistinctKeys(c) && Aggregation.SortedByCountDesc(c)
      && Aggregation.Total(c) == CountWhere(rows, IsActiveRow)
      && (forall j :: 0 <= j < |c| ==> c[j].count == CountWhere(rows, Reports.ActiveIn(c[j].key)))
      && (forall j :: 0 <= j < |c| ==>
            exists i :: 0 <= i < |rows| && rows[i].status == "active" && rows[i].courseName == c[j].key)
      && (forall i :: 0 <= i < |rows| && rows[i].status == "active" ==>
            exists j :: 0 <= j < |c| && c[j].key == rows[i].courseName)
  {
    var names := Reports.ActiveCourseNames(rows);
    var c := Reports.CourseStudentCounts(names);
    Reports.CourseStudentCountsFacts(names);
    ActiveNamesCount(rows);
    forall j | 0 <= j < |c|
      ensures exists i :: 0 <= i < |rows| && rows[i].status == "active" && rows[i].courseName == c[j].key
    {
      assert c[j].key in names;
    }
    forall i | 0 <= i < |rows| && rows[i].status == "active"
      ensures exists j :: 0 <= j < |c| && c[j].key == rows[i].courseName
    {
      assert rows[i].courseName in names;
    }
  }

  // ------------------------------------------------------------ recent activities

  datatype Activity = Activity(id: string, kind: string, name: string, details: string, date: string)

  /** The three queries' rows; `date` is already the displayed date. */
  datatype EnrollmentRow = EnrollmentRow(id: string, studentName: string, courseName: string, date: string)
  datatype SocialRow = SocialRow(id: string, studentName: string, date: string)
  datatype AbsenceRow = AbsenceRow(id: string, studentName: string, date: string)

  function EnrollmentActivity(e: EnrollmentRow): Activity {
    Activity("enrollment-" + e.id, "Matrícula", e.studentName, e.courseName, e.date)
  }

  function SocialActivity(s: SocialRow): Activity {
    Activity("social-" + s.id, "Atendimento", s.studentName, "Assistência Social", s.date)
  }

  function AbsenceActivity(a: AbsenceRow): Activity {
    Activity("attendance-" + a.id, "Frequência", a.studentName, "Falta", a.date)
  }

  /** `allActivities`: the formatted enrollments, then the social records, then the absences,
      each block in query order and nothing re-sorted. */
  function RecentActivities(es: seq<EnrollmentRow>, ss: seq<SocialRow>, as_: seq<AbsenceRow>): (r: seq<Activity>)
    ensures |r| == |es| + |ss| + |as_|
    ensures forall i :: 0 <= i < |es| ==> r[i] == EnrollmentActivity(es[i])
    ensures forall i :: 0 <= i < |ss| ==> r[|es| + i] == SocialActivity(ss[i])
    ensures forall i :: 0 <= i < |as_| ==> r[|es| + |ss| + i] == AbsenceActivity(as_[i])
  {
    seq(|es|, i requires 0 <= i < |es| => EnrollmentActivity(es[i]))
    + seq(|ss|, i requires 0 <= i < |ss| => SocialActivity(ss[i]))
    + seq(|as_|, i requires 0 <= i < |as_| => AbsenceActivity(as_[i]))
  }

  /** The prefixes keep the ids apart: if each table's ids are distinct, so are the
      activities' ids, since ids of different tables differ in their first letter. */
  lemma ActivityIdsDistinct(es: seq<EnrollmentRow>, ss: seq<SocialRow>, as_: seq<AbsenceRow>)
    requires forall i, j :: 0 <= i < j < |es| ==> es[i].id != es[j].id
    requires forall i, j :: 0 <= i < j < |ss| ==> ss[i].id != ss[j].id
    requires forall i, j :: 0 <= i < j < |as_| ==> as_[i].id != as_[j].id
    ensures var r := RecentActivities(es, ss, as_);
      forall i, j :: 0 <= i < j < |r| ==> r[i].id != r[j].id
  {
    var r := RecentActivities(es, ss, as_);
    forall i, j | 0 <= i < j < |r| ensures r[i].id != r[j].id {
      IdsDiffer(es, ss, as_, i, j);
    }
  }

  /** The letter an activity id starts with, by the table it comes from. */
  function Tag(i: int, ne: int, ns: int): char {
    if i < ne then 'e' else if i < ne + ns then 's' else 'a'
  }

  lemma IdShape(es: seq<EnrollmentRow>, ss: seq<SocialRow>, as_: seq<AbsenceRow>, i: int)
    requires 0 <= i < |es| + |ss| + |as_|
    ensures var id := RecentActivities(es, ss, as_)[i].id;
      |id| > 0 && id[0] == Tag(i, |es|, |ss|)
      && (i < |es| ==> id == "enrollment-" + es[i].id)
      && (|es| <= i < |es| + |ss| ==> id == "social-" + ss[i - |es|].id)
      && (|es| + |ss| <= i ==> id == "attendance-" + as_[i - |es| - |ss|].id)
  {
    var r := RecentActivities(es, ss, as_);
    if i < |es| {
      assert r[i] == EnrollmentActivity(es[i]);
    } else if i < |es| + |ss| {
      assert r[i] == SocialActivity(ss[i - |es|]);
    } else {
      assert r[i] == AbsenceActivity(as_[i - |es| - |ss|]);
    }
  }

  lemma IdsDiffer(es: seq<EnrollmentRow>, ss: seq<SocialRow>, as_: seq<AbsenceRow>, i: int, j: int)
    requires forall i, j :: 0 <= i < j < |es| ==> es[i].id != es[j].id
    requires forall i, j :: 0 <= i < j < |ss| ==> ss[i].id != ss[j].id
    requires forall i, j :: 0 <= i < j < |as_| ==> as_[i].id != as_[j].id
    requires 0 <= i < j < |es| + |ss| + |as_|
    ensures RecentActivities(es, ss, as_)[i].id != RecentActivities(es, ss, as_)[j].id
  {
    IdShape(es, ss, as_, i);
    IdShape(es, ss, as_, j);
    var ne, ns := |es|, |ss|;
    if Tag(i, ne, ns) == Tag(j, ne, ns) {
      if j < ne {
        PrefixInjective("enrollment-", es[i].id, es[j].id);
      } else if j < ne + ns {
        PrefixInjective("social-", ss[i - ne].id, ss[j - ne].id);
      } else {
        PrefixInjective("attendance-", as_[i - ne - ns].id, as_[j - ne - ns].id);
      }
    }
  }

  lemma PrefixInjective(p: string, a: string, b: string)
    requires a != b
    ensures p + a != p + b
  {
    assert (p + a)[|p|..] == a;
    assert (p + b)[|p|..] == b;
  }

  // ------------------------------------------------------------ event modal

  datatype Event = Event(id: string, title: string, description: string, date: string, time: string, location: string)

  /** The five form fields of the modal. */
  datatype EventData = EventData(title: string, description: string, date: string, time: string, location: string)

  /** What `handleSaveEvent` sends. */
  datatype EventWrite = UpdateEvent(id: string, data: EventData) | InsertEvent(data: EventData)

  const TitleMissing := "Por favor, informe o título do evento"
  const DateMissing := "Por favor, informe a data do evento"

  function DataOf(e: Event): (d: EventData)
    ensures d.title == e.title && d.description == e.description && d.date == e.date
         && d.time == e.time && d.location == e.location
  {
    EventData(e.title, e.description, e.date, e.time, e.location)
  }

  /** `handleSaveEvent`: reject an empty title, then an empty date; otherwise update the
      event being edited, or insert a new one. */
  function SaveEvent(form: EventData, editing: Option<Event>): (o: Outcome<EventWrite>)
    ensures form.title == "" ==> o == Rejected(TitleMissing)
    ensures form.title != "" && form.date == "" ==> o == Rejected(DateMissing)
    ensures o.Write? <==> form.title != "" && form.date != ""
    ensures o.Write? && editing.Some? ==> o.payload == UpdateEvent(editing.value.id, form)
    ensures o.Write? && editing.None? ==> o.payload == InsertEvent(form)
  {
    if form.title == "" then Rejected(TitleMissing)
    else if form.date == "" then Rejected(DateMissing)
    else match editing
      case Some(e) => Write(UpdateEvent(e.id, form))
      case None => Write(InsertEvent(form))
  }

  /** The modal's state. */
  class EventModal {
    var editing: Option<Event>
    var form: EventData
    var isOpen: bool

    constructor()
      ensures editing == None && form == EventData("", "", "", "", "") && !isOpen
    {
      editing := None;
      form := EventData("", "", "", "", "");
      isOpen := false;
    }

    /** `handleOpenEventModal(event?)`; `today` is the ISO date of the day. */
    method Open(event: Option<Event>, today: string)
      modifies this
      ensures editing == event && isOpen
      ensures event.Some? ==> form == DataOf(event.value)
      ensures event.None? ==> form == EventData("", "", today, "", "")
    {
      editing := event;
      match event {
        case Some(e) =>
          form := DataOf(e);
        case None =>
          form := EventData("", "", today, "", "");
      }
      isOpen := true;
    }

    /** `handleSaveEvent` as seen by the rest of the page: its decision, from the fields. */
    method Save() returns (o: Outcome<EventWrite>)
      ensures o == SaveEvent(form, editing)
    {
      o := SaveEvent(form, editing);
    }
  }

  /** Saving straight after opening: an existing event with a title and a date is written
      back unchanged under its id; a fresh form (no title yet) is always refused. */
  lemma SaveAfterOpen(e: Event, today: string)
    ensures e.title != "" && e.date != "" ==> SaveEvent(DataOf(e), Some(e)) == Write(UpdateEvent(e.id, DataOf(e)))
    ensures SaveEvent(EventData("", "", today, "", ""), None) == Rejected(TitleMissing)
  {
  }

  // ------------------------------------------------------------ report dispatch

  /** Where a generated report's rows come from. */
  datatype ReportSource = AttendanceRows | EnrollmentRows | SocialRows | NoRows

  datatype ReportPlan = ReportPlan(title: string, source: ReportSource)

  const InvalidReportType := "Tipo de relatório inválido"

  /** The `switch (reportType)` of `handleGenerateReport`. */
  function GenerateReport(reportType: string): (o: Outcome<ReportPlan>)
    ensures o.Rejected? <==> reportType !in ["attendance", "students", "social", "certificates"]
    ensures o.Rejected? ==> o.message == InvalidReportType
    ensures reportType == "certificates" ==> o == Write(ReportPlan("Relatório de Certificados Emitidos", NoRows))
    ensures o.Write? && reportType != "certificates" ==> o.payload.source != NoRows
  {
    match reportType
    case "attendance" => Write(ReportPlan("Relatório de Frequência", AttendanceRows))
    case "students" => Write(ReportPlan("Relatório de Alunos por Situação", EnrollmentRows))
    case "social" => Write(ReportPlan("Relatório de Atendimentos Sociais", SocialRows))
    case "certificates" => Write(ReportPlan("Relatório de Certificados Emitidos", NoRows))
    case _ => Rejected(InvalidReportType)
  }

  /** Each type reads its own table under its own title. */
  lemma ReportPlansDistinct(a: string, b: string)
    requires GenerateReport(a).Write? && GenerateReport(b).Write? && a != b
    ensures GenerateReport(a).payload.title != GenerateReport(b).payload.title
    ensures GenerateReport(a).payload.source != GenerateReport(b).payload.source
  {
  }
}
