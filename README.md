# ONG Amar Sem Limites dashboard: the rules behind the pages

The system is a React dashboard that an NGO uses on top of a Supabase database to manage its
students, courses, enrolments, attendance, social assistance and health records. Nearly
every page fetches rows, shows them in tables, and writes rows back. This project models the
rules those pages apply between fetching and writing:

- the input masks and the age rule of `src/utils/masks.ts`;
- the render precedence of the generic `Table` component;
- the counting, sorting, banding and percentage arithmetic of the reports page and the
  dashboard;
- the edits that the attendance sheet, the need checklist and the guardian list make;
- the search filters of the list pages;
- the guards each save handler checks before it writes;
- the page-title routing of the layout.

Each source file has one Dafny module. Helpers shared between pages live in two more:

- `Common`: substring search, ASCII lower-casing, `Filter`, `find`, subsequences, number
  texts, and the `Outcome` type (`Rejected(message)` or `Write(payload)`).
- `Aggregation`: the insertion-ordered tally behind every `Record<string, number>` filled by
  `forEach`. It also holds the stable sort by count and the integer rounding of percentages.

The dashboard repeats some of the reports page's code; the `Dashboard` module reuses the
`Reports` definitions for it.

Each handler is a function that returns either the toast message with no write, or the
payload it would send. So "nothing is written on an error" is part of its contract.

Component state that a handler changes in place is a class, with `modifies` clauses on its
methods. These are:

- the attendance sheet, the need checklist form and the health form;
- the user modal, the event modal and the guardian field array;
- the attendance tab of the student page and the layout's sidebar flag.

A loop that fills a dictionary becomes a method with loop invariants. Each such method is
proved equal to a reference function, and the lemmas are stated about that function:

- `Aggregation.CountAll` (the tally);
- `Reports.CountCourseAttendance` and `Reports.CountNeeds`;
- `Attendance.GroupSavedAttendances`.

## Model

| member | source | states |
|---|---|---|
| Masks.UnformatValue | src/utils/masks.ts:34-36 | the result holds only digits and is no longer than the input |
| Masks.UnformatValueProperties | src/utils/masks.ts:34-36 | a character is in the result iff it is a digit of the input; the digits keep their order; stripping twice changes nothing |
| Masks.UnformatAppend | src/utils/masks.ts:34-36 | stripping distributes over concatenation |
| Masks.FormatCPF | src/utils/masks.ts:1-13 | the empty input gives `''`, and every result has at most 14 characters |
| Masks.CpfShape | src/utils/masks.ts:5-12 | for a non-empty input with at most 11 digits, the three replaces give the dotted pattern of the digit string |
| Masks.CpfElevenDigits | src/utils/masks.ts:5-12 | exactly 11 digits give `DDD.DDD.DDD-DD` over those digits in order |
| Masks.CpfRoundTrip | src/utils/masks.ts:1-13 | with at most 11 digits, stripping the formatted CPF gives back the input's digits |
| Masks.CpfPatternDigits | src/utils/masks.ts:9-11 | the CPF pattern of a digit string holds exactly those digits |
| Masks.FormatPhone | src/utils/masks.ts:15-32 | the empty input gives `''`; with at most 10 digits the result has at most 14 characters, and always at most 17 |
| Masks.PhoneShape | src/utils/masks.ts:22-31 | a non-empty input with at most 11 digits gives the phone pattern of its digits, in the short form up to 10 digits and the long form at 11 |
| Masks.PhoneShortShape | src/utils/masks.ts:22-25 | up to 10 digits, the two replaces and the cut at 14 give `(DD) DDDD-DDDD` or its prefix |
| Masks.PhoneLongShape | src/utils/masks.ts:26-31 | 11 digits, with the cut at 17, give `(DD) D DDDD-DDDD` |
| Masks.PhoneElevenDigits | src/utils/masks.ts:26-31 | exactly 11 digits give `(DD) D DDDD-DDDD` over those digits in order |
| Masks.PhoneRoundTrip | src/utils/masks.ts:15-32 | with at most 11 digits, stripping the formatted phone gives back the input's digits |
| Masks.PhonePatternDigits | src/utils/masks.ts:22-31 | the phone pattern of a digit string holds exactly those digits |
| Masks.FirstRun | src/utils/masks.ts:9-11 | the search finds the first position where a run of digits of the given width starts, or says there is none |
| Masks.SplitFirstRun | src/utils/masks.ts:9-10 | a non-global replace with no match leaves the text unchanged |
| Masks.Take | src/utils/masks.ts:12 | `substring(0, n)` has at most `n` characters and leaves a shorter text whole |
| Masks.CalculateAge | src/utils/masks.ts:38-50 | the age is the difference of the years or one less, and exactly the difference on the birthday itself |
| Masks.AgeCountsAnniversaries | src/utils/masks.ts:38-50 | the age is the number of birthdays reached: the `k`-th anniversary is on or before `today` iff `k` is at most the age |
| Masks.AgeFacts | src/utils/masks.ts:42-47 | the age is the year difference, minus one exactly when this year's birthday has not come yet; it is never negative for a birth not after `today` |
| Masks.AgeMonotonic | src/utils/masks.ts:38-50 | the age never goes down as `today` moves forward |
| Table.EmptyText | src/components/ui/Table.tsx:25 | the empty row shows the `emptyMessage` prop, and `'Nenhum dado encontrado'` without one |
| Table.Click | src/components/ui/Table.tsx:75 | activating a row calls the handler with the row's item exactly when a handler is given |
| Table.HeaderCells | src/components/ui/Table.tsx:41-49 | one header cell per column, showing its `header`, in column order |
| Table.RenderCell | src/components/ui/Table.tsx:28-34 | a function accessor gives `accessor(item)` and a key accessor the item's value at that key |
| Table.ItemRow | src/components/ui/Table.tsx:71-83 | a row is keyed by `keyExtractor(item)`, has one cell per column rendered by `renderCell`, and carries the click |
| Table.Body | src/components/ui/Table.tsx:53-83 | the spinner row while loading, else the empty row when there is no data, else one row per item in order |
| Table.Render | src/components/ui/Table.tsx:36-88 | the header has one cell per column; the body is the spinner while loading, else the empty row for no data, else one row per item |
| Table.LoadingIgnoresData | src/components/ui/Table.tsx:53-63 | while loading, the table does not depend on the data and its body is a single row |
| Table.RowsFollowData | src/components/ui/Table.tsx:28-34 | when not loading, row `i` is keyed by `data[i]`; a function accessor gives `accessor(data[i])` and a key accessor `data[i][key]`; the click passes `data[i]` only when there is a handler |
| Table.BodyRowCount | src/components/ui/Table.tsx:53-83 | the body has one row while loading or with no data, else one row per item |
| Aggregation.Occurrences | src/pages/reports/ReportsList.tsx:109-120 | a key's count is at most the number of keys, and zero exactly when the key does not occur |
| Aggregation.OccurrencesCons | src/pages/reports/ReportsList.tsx:109-120 | counting from the front: a key placed ahead adds one to its own count and nothing to any other key's |
| Aggregation.Distinct | src/pages/reports/ReportsList.tsx:109-120 | the keys of the dictionary are exactly the keys that occur, each once |
| Aggregation.TallyFacts | src/pages/reports/ReportsList.tsx:109-120 | the tally has one group per distinct key, in first-occurrence order; each group counts the occurrences of its key and records where the key first occurs |
| Aggregation.TallyStepOld | src/pages/reports/ReportsList.tsx:112-119 | adding a key that is already present increments its own group and nothing else |
| Aggregation.TallyStepNew | src/pages/reports/ReportsList.tsx:112-119 | adding a new key appends a group with count 1 |
| Aggregation.TallyTotal | src/pages/reports/ReportsList.tsx:109-120 | the counts of the tally add up to the number of keys |
| Aggregation.Counter.constructor | src/pages/reports/ReportsList.tsx:107 | the dictionary starts empty |
| Aggregation.Counter.Add | src/pages/reports/ReportsList.tsx:110-119 | one `forEach` step keeps the counter equal to the tally of the keys seen so far |
| Aggregation.CountAll | src/pages/reports/ReportsList.tsx:109-120 | the loop over the keys returns exactly the tally |
| Aggregation.LabelTotalBound | src/pages/reports/ReportsList.tsx:158-162 | the counts of distinct labels add up to at most the number of values, and to exactly that number iff every value is a label |
| Aggregation.LabelTotalThree | src/pages/reports/ReportsList.tsx:158-162 | the total over three labels is the sum of their three counts |
| Aggregation.LabelTotalFour | src/pages/reports/ReportsList.tsx:297-302 | the total over four labels is the sum of their four counts |
| Aggregation.InsertByCount | src/pages/reports/ReportsList.tsx:123-128 | inserting into a list sorted by count keeps it sorted and adds exactly the new entry |
| Aggregation.SortByCountDesc | src/pages/reports/ReportsList.tsx:123-128 | the result is sorted by non-increasing count and is a permutation of the input |
| Aggregation.InsertIsStable | src/pages/reports/ReportsList.tsx:123-128 | inserting into a sorted list puts the new entry before the entries with its count, so, per count, the entries keep the order of the list with the new entry in front |
| Aggregation.SortIsStable | src/pages/reports/ReportsList.tsx:123-128 | the sort is stable: for every count, the entries with that count appear in the same order as in the input |
| Aggregation.SortKeepsDistinctKeys | src/pages/reports/ReportsList.tsx:123-128 | the sort keeps the keys distinct and the entries the same |
| Aggregation.SortKeepsTotal | src/pages/reports/ReportsList.tsx:123-128 | the sort keeps the sum of the counts |
| Aggregation.TotalOfMultiset | src/pages/reports/ReportsList.tsx:123-128 | two lists with the same entries have the same sum of counts |
| Aggregation.RoundPercent | src/pages/reports/ReportsList.tsx:385-386 | a zero total gives 0, as the guarded percentage cells do |
| Aggregation.RoundPercentFacts | src/pages/reports/ReportsList.tsx:385-386 | for a positive total, the result is the integer nearest to `100 * count / total` with halves rounded up; 0 for no count, 100 for the whole, at most 100 for a part |
| Aggregation.PercentOfPart | src/pages/reports/ReportsList.tsx:1064-1070 | the percentage of a part of the total is at most 100 |
| Aggregation.RoundPercentMonotonic | src/pages/reports/ReportsList.tsx:1064-1070 | a larger count never gets a smaller percentage |
| Reports.AttendancePercent | src/pages/reports/ReportsList.tsx:73-78 | no rows give 0 |
| Reports.AverageAttendance | src/pages/reports/ReportsList.tsx:73-78 | no rows give `'0%'`; otherwise the text is the rounded percentage followed by `%` |
| Reports.AttendancePercentFacts | src/pages/reports/ReportsList.tsx:73-78 | with rows, the percentage is the nearest integer to the share of `'present'` rows, and at most 100 |
| Reports.AverageAttendanceExtremes | src/pages/reports/ReportsList.tsx:73-78 | all present gives `'100%'`; none present gives `'0%'` |
| Reports.ActiveCourseNames | src/pages/reports/ReportsList.tsx:104 | a course name is listed iff some enrollment row with status `'active'` has it, and as many times as there are such rows |
| Reports.CourseStudentCounts | src/pages/reports/ReportsList.tsx:107-128 | the result is sorted by non-increasing count and holds exactly the entries of the tally |
| Reports.FetchCourseStudentCounts | src/pages/reports/ReportsList.tsx:96-134 | the `forEach` and the sort return exactly the sorted tally of the course names |
| Reports.CourseStudentCountsFacts | src/pages/reports/ReportsList.tsx:107-128 | one entry per distinct course name, with its number of rows; the counts add up to the number of rows and are in non-increasing order |
| Reports.CountStatuses | src/pages/reports/ReportsList.tsx:158-162 | the three status counts add up to at most the number of rows, and to exactly that number iff every status is a declared one |
| Reports.CountTypes | src/pages/reports/ReportsList.tsx:297-302 | the four type counts add up to at most the number of records, and to exactly that number iff every type is a declared one |
| Reports.TypePercentages | src/pages/reports/ReportsList.tsx:1064-1070 | each of the four percentage cells is at most 100, and all four are 0 when the total is 0 |
| Reports.AgeBands | src/pages/reports/ReportsList.tsx:193-197 | for integer ages, the three bands add up to the number of students |
| Reports.AgeBandsCount | src/pages/reports/ReportsList.tsx:193-197 | the bands count exactly the ages `<= 12`, `13..17` and `>= 18` |
| Reports.CountCourseAttendance | src/pages/reports/ReportsList.tsx:215-229 | the `forEach` over the rows returns exactly the per-course presence and absence counts of the reference |
| Reports.CourseAttendanceOf | src/pages/reports/ReportsList.tsx:215-229 | every entry is a course that occurs in the rows, and no course has two entries |
| Reports.AttendanceStepOld | src/pages/reports/ReportsList.tsx:223-227 | a row of a known course bumps only that course's entry |
| Reports.AttendanceStepNew | src/pages/reports/ReportsList.tsx:219-227 | a row of a new course appends a fresh entry that already counts that row |
| Reports.PresentPlusAbsent | src/pages/reports/ReportsList.tsx:223-227 | per course, presences plus absences equal that course's number of rows, so any status but `'present'` counts as absent |
| Reports.CourseAttendanceFacts | src/pages/reports/ReportsList.tsx:215-229 | one entry per distinct course; each entry's present and absent counts add up to the course's rows |
| Reports.FlattenMembers | src/pages/reports/ReportsList.tsx:262-268 | a need is in the flattened list iff some record identified it |
| Reports.CountNeeds | src/pages/reports/ReportsList.tsx:262-268 | the nested `forEach` returns exactly the tally of all identified needs |
| Reports.NeedCountsFacts | src/pages/reports/ReportsList.tsx:262-268 | the counts add up to the total number of needs, the keys are distinct, only needs that occur get a key, and every count is positive and at most the total, so the unguarded percentage at lines 992-994 never divides by zero |
| Reports.MatchesSearch | src/pages/reports/ReportsList.tsx:484-486 | an empty search matches every report; a name containing the term ignoring case matches; without a description only the name decides |
| Reports.NarrowCategory | src/pages/reports/ReportsList.tsx:482-495 | a category keeps its title and id, and a report stays in it iff it matches the search and the category filter |
| Reports.Narrowed | src/pages/reports/ReportsList.tsx:481-496 | the map narrows every category, in order |
| Reports.FilteredCategories | src/pages/reports/ReportsList.tsx:481-498 | a category is kept iff it is a narrowed category with at least one report, in the catalogue's order |
| Reports.FilteredCategoriesFacts | src/pages/reports/ReportsList.tsx:481-498 | a report is listed iff it matches the search and the category filter; no listed category is empty; every listed category comes from the catalogue |
| Reports.EmptySearchListsAll | src/pages/reports/ReportsList.tsx:481-498 | an empty search under `'all'` lists the catalogue unchanged |
| Reports.UnderscoreSpaces | src/pages/reports/ReportsList.tsx:416 | after the replace, the title has no whitespace character of the `\s` class |
| Reports.DropSpacesRun | src/pages/reports/ReportsList.tsx:416 | a match of `\s+` takes the whole run of whitespace, up to the next other character |
| Reports.UnderscoreSpacesRun | src/pages/reports/ReportsList.tsx:416 | a run of one or more whitespace characters between two other texts becomes exactly one `_` |
| Reports.UnderscoreSpacesNoSpace | src/pages/reports/ReportsList.tsx:416 | a title without whitespace is left unchanged |
| Reports.UnderscoreSpacesKeepsText | src/pages/reports/ReportsList.tsx:416 | the replace keeps every character that is not whitespace, in order |
| Reports.ReportFileName | src/pages/reports/ReportsList.tsx:416 | the file name ends in `.md` |
| Reports.ReportFileNameFacts | src/pages/reports/ReportsList.tsx:416 | the name is exactly the lower-cased, underscored title, then `_`, then the date, then `.md`; with an ISO date it has no whitespace |
| Dashboard.DashboardAverage | src/pages/Dashboard.tsx:115-120 | the card's average starts as `'0%'` and, with rows, becomes the rounded present percentage followed by `%`: exactly the reports page's average |
| Dashboard.FetchCourseStudentCounts | src/pages/Dashboard.tsx:259-299 | the active-only query, the `forEach` and the sort return exactly the sorted tally of the active enrollments' course names |
| Dashboard.CourseCountsOfRows | src/pages/Dashboard.tsx:272-293 | the keys are distinct and sorted by non-increasing count; each entry counts the active enrollments of its course; the counts add up to the number of active enrollments; a course has an entry iff some active enrollment is in it |
| Dashboard.RecentActivities | src/pages/Dashboard.tsx:190-221 | the feed is the enrollments, then the social records, then the absences, each block in query order and not re-sorted |
| Dashboard.IdShape | src/pages/Dashboard.tsx:189-211 | each activity id is its row's id prefixed with `enrollment-`, `social-` or `attendance-` by its table |
| Dashboard.ActivityIdsDistinct | src/pages/Dashboard.tsx:190-221 | if each table's ids are distinct, all activity ids are distinct |
| Dashboard.SaveEvent | src/pages/Dashboard.tsx:321-372 | an empty title is refused first, then an empty date, with no write; otherwise the edited event is updated under its id, or a new one is inserted |
| Dashboard.EventModal.constructor | src/pages/Dashboard.tsx:301-319 | the modal starts closed, with no event and empty fields |
| Dashboard.EventModal.Open | src/pages/Dashboard.tsx:301-319 | opening with an event copies its five fields; opening without one clears them and sets the date to today |
| Dashboard.EventModal.Save | src/pages/Dashboard.tsx:321-372 | the save decision made from the modal's fields is the one `SaveEvent` makes |
| Dashboard.SaveAfterOpen | src/pages/Dashboard.tsx:301-372 | saving right after opening writes an existing event back unchanged, and refuses a new form for its missing title |
| Dashboard.GenerateReport | src/pages/Dashboard.tsx:399-463 | an unknown type is refused with `'Tipo de relatório inválido'`; `'certificates'` has no rows; every other known type reads a table |
| Dashboard.ReportPlansDistinct | src/pages/Dashboard.tsx:407-462 | two different known types get different titles and different tables |
| Attendance.FindExisting | src/pages/attendance/AttendanceList.tsx:98 | the lookup returns the first saved row of the enrollment, or nothing when there is none |
| Attendance.BuildRecords | src/pages/attendance/AttendanceList.tsx:96-106 | the sheet has one line per enrollment |
| Attendance.BuildRecordsFacts | src/pages/attendance/AttendanceList.tsx:96-106 | one line per enrollment, in order; its status and reason come from the first saved row for that enrollment, else `'present'` and `''` |
| Attendance.AttendanceSheet.constructor | src/pages/attendance/AttendanceList.tsx:96-108 | the sheet holds the built records |
| Attendance.WithStatus | src/pages/attendance/AttendanceList.tsx:249-257 | a status change keeps the number of lines |
| Attendance.WithReason | src/pages/attendance/AttendanceList.tsx:259-267 | a reason change keeps the number of lines |
| Attendance.WithStatusFacts | src/pages/attendance/AttendanceList.tsx:249-257 | a status change sets the status of the lines of that student and leaves every other line and every other field unchanged |
| Attendance.WithReasonFacts | src/pages/attendance/AttendanceList.tsx:259-267 | a reason change sets only the reason, and only on the lines of that student |
| Attendance.EditsCompose | src/pages/attendance/AttendanceList.tsx:249-267 | the last status change wins, and status and reason edits commute |
| Attendance.AttendanceSheet.SetStatus | src/pages/attendance/AttendanceList.tsx:249-257 | the loop leaves the sheet equal to the status update of the old sheet |
| Attendance.AttendanceSheet.SetReason | src/pages/attendance/AttendanceList.tsx:259-267 | the loop leaves the sheet equal to the reason update of the old sheet |
| Attendance.FindEnrollment | src/pages/attendance/AttendanceList.tsx:221 | the lookup returns the first enrollment of that student, or nothing exactly when the student has none |
| Attendance.WriteFor | src/pages/attendance/AttendanceList.tsx:219-228 | a line gets a write iff the student's first enrollment exists and has a non-empty id; the write carries that id, the date and the status, and a reason iff the status is `'absent'` |
| Attendance.Payload | src/pages/attendance/AttendanceList.tsx:219-228 | the payload is no longer than the sheet; every write has an enrollment id and the date, and carries a reason iff its status is `'absent'` |
| Attendance.PayloadAppend | src/pages/attendance/AttendanceList.tsx:219-228 | the payload of two sheets in a row is the first's payload followed by the second's, so the writes keep the order of the lines |
| Attendance.PayloadSingle | src/pages/attendance/AttendanceList.tsx:219-228 | a single line gives its write, or nothing when it has no enrollment id |
| Attendance.PayloadMembers | src/pages/attendance/AttendanceList.tsx:219-228 | a write is in the payload iff some line of the sheet produces it |
| Attendance.PayloadComplete | src/pages/attendance/AttendanceList.tsx:219-228 | when every student has an enrollment, there is one write per line, in order |
| Attendance.SaveAttendance | src/pages/attendance/AttendanceList.tsx:178-230 | no course, then no date, then no lines are refused in that order with no write; otherwise the rows dated with the selected date of the course's enrollments are deleted, and the payload for that date is inserted |
| Attendance.GroupSavedAttendances | src/pages/attendance/AttendanceList.tsx:144-165 | the `reduce` returns the reference grouping `Grouped`: one entry per `courseId-date` key, in order of first occurrence |
| Attendance.GroupKeyInjective | src/pages/attendance/AttendanceList.tsx:149 | with dates of one length, two rows share a key iff they share the course and the date |
| Attendance.Grouped | src/pages/attendance/AttendanceList.tsx:144-165 | entry `j` is filed under the `j`-th distinct `courseId-date` key; no two entries share a key; every fetched row's key has an entry; each entry counts the rows with its key, at least one |
| Attendance.GroupedFacts | src/pages/attendance/AttendanceList.tsx:144-165 | the entries' `count`s add up to the number of fetched rows; each entry takes its course id, course name and date from the first row with its key |
| Attendance.GroupedFirstRow | src/pages/attendance/AttendanceList.tsx:145-158 | an entry is created from the first row with its key, which supplies its course id, course name and date |
| Attendance.KeepSaved | src/pages/attendance/AttendanceList.tsx:269-292 | a non-empty search keeps an entry iff its course name contains the term ignoring case; otherwise `'today'` keeps exactly the entries of today, `'week'` and `'month'` exactly those whose date is not lexically before the cutoff, and an unknown filter keeps every entry |
| Attendance.FilteredAttendances | src/pages/attendance/AttendanceList.tsx:269-292 | an entry is listed iff it is saved and the predicate keeps it, in the list's order |
| Attendance.FilteredAttendancesFacts | src/pages/attendance/AttendanceList.tsx:269-292 | a non-empty search decides alone, whatever the date filter; an unknown filter keeps everything; the list order is kept |
| Attendance.FilterBoundaries | src/pages/attendance/AttendanceList.tsx:283-287 | `'today'` keeps today's entries, and `'week'` keeps an entry dated at the cutoff |
| Social.ToggleNeed | src/pages/social/SocialAssistanceList.tsx:135-141 | the toggled need's membership flips, and every other need's membership is kept |
| Social.ToggleNeedOrder | src/pages/social/SocialAssistanceList.tsx:135-141 | a removal keeps the other needs in order; an addition appends at the end |
| Social.ToggleTwice | src/pages/social/SocialAssistanceList.tsx:135-141 | toggling an unselected need twice restores the list |
| Social.ToggleKeepsNoDuplicates | src/pages/social/SocialAssistanceList.tsx:135-141 | a toggle keeps the checklist free of duplicates |
| Social.FromEmptyNoDuplicates | src/pages/social/SocialAssistanceList.tsx:26 | starting from `[]`, any sequence of toggles leaves no need selected twice |
| Social.CreateAssistance | src/pages/social/SocialAssistanceList.tsx:90-109 | no student, then no need, are refused with no write; otherwise the row carries the student, today, the selected needs, no referrals and the notes |
| Social.AssistanceForm.constructor | src/pages/social/SocialAssistanceList.tsx:25-27 | the form starts with no student, no needs and no notes |
| Social.AssistanceForm.Toggle | src/pages/social/SocialAssistanceList.tsx:135-141 | a click applies the toggle to the checklist and changes no other field |
| Social.AssistanceForm.Create | src/pages/social/SocialAssistanceList.tsx:90-133 | the decision is `CreateAssistance` on the fields; the fields are reset only after a successful insert |
| Social.FormatRecords | src/pages/social/SocialAssistanceList.tsx:72-79 | one record per row, in order, with the student name from the joined student |
| Social.FilteredRecords | src/pages/social/SocialAssistanceList.tsx:143-153 | a record is listed iff it is in the list and the predicate keeps it, in the list's order |
| Social.FilteredRecordsFacts | src/pages/social/SocialAssistanceList.tsx:143-153 | a non-empty search decides alone; without one, `'all'` keeps everything and a need keeps the records that identified it; the order is kept |
| CourseDetail.AvailableStudents | src/pages/courses/CourseDetail.tsx:92-93 | a student is available iff its id is not enrolled, in the students' order |
| CourseDetail.AvailableStudentsFacts | src/pages/courses/CourseDetail.tsx:92-93 | the available students are exactly those whose id is not enrolled, in the original order |
| CourseDetail.EnrollStudent | src/pages/courses/CourseDetail.tsx:135-152 | no selected student is refused with no write; otherwise an active enrollment of that student in the course, dated today |
| CourseDetail.CourseSummary | src/pages/courses/CourseDetail.tsx:362-389 | the card's total is the number of enrollments, and its active, locked and completed figures count the enrollments with exactly that status |
| CourseDetail.CourseSummaryFacts | src/pages/courses/CourseDetail.tsx:363-390 | the active, locked and completed figures add up to at most the total, and to the total iff every status is a declared one |
| CourseDetail.ActiveEnrollments | src/pages/courses/CourseDetail.tsx:628 | an enrollment is listed iff it is one of the course's and its status is `'active'`, in order |
| CourseDetail.ActiveEnrollmentsFacts | src/pages/courses/CourseDetail.tsx:628 | the modal lists exactly the active enrollments, in order, as many as the card's active figure |
| StudentDetail.EnrollInCourse | src/pages/students/StudentDetail.tsx:223-250 | an empty selection is refused, then a course the student already has, with no write; otherwise an active enrollment dated today |
| StudentDetail.EnrolNoDuplicate | src/pages/students/StudentDetail.tsx:233-240 | an accepted enrolment never enrols the student twice in a course |
| StudentDetail.FindEnrollment | src/pages/students/StudentDetail.tsx:150 | the lookup returns the first enrollment with that id, or nothing exactly when none has it |
| StudentDetail.CourseNameFor | src/pages/students/StudentDetail.tsx:156 | the name is never empty; with no matching enrollment it is `'Curso desconhecido'`; any other name is the matching enrollment's course |
| StudentDetail.FormatAttendance | src/pages/students/StudentDetail.tsx:149-158 | one line per fetched row |
| StudentDetail.FormatAttendanceFacts | src/pages/students/StudentDetail.tsx:149-158 | one line per fetched row, in order, with the row's fields and the first matching enrollment's course name, or the fallback |
| StudentDetail.AttendanceTab.Load | src/pages/students/StudentDetail.tsx:136-160 | the lines are replaced only when the student has an enrollment |
| StudentDetail.HealthOfTab | src/pages/students/StudentDetail.tsx:436-438 | a record is shown iff it is among the student's fetched records and has the tab's type, in order |
| StudentDetail.HealthOfTabFacts | src/pages/students/StudentDetail.tsx:436-438 | the tab shows exactly the records of its type, in order |
| StudentDetail.HealthKind | src/pages/students/StudentDetail.tsx:705-709 | dental, psychological and nutritional give `odontológica`, `psicológica` and `nutricional`; any other tab gives `médica` |
| StudentDetail.HealthEmptyMessage | src/pages/students/StudentDetail.tsx:705-709 | the message is `Nenhuma ficha `, then the tab's kind, then ` encontrada` |
| StudentDetail.HealthEmptyMessagesDistinct | src/pages/students/StudentDetail.tsx:705-719 | the four health tabs get four different empty messages |
| StudentDetail.EmptyMessage | src/pages/students/StudentDetail.tsx:569-709 | the courses, attendance and social tabs show their own fixed messages, and the health tab the message of its record type |
| StudentDetail.EmptyMessagesDistinct | src/pages/students/StudentDetail.tsx:569-719 | no two tabs show the same empty message |
| StudentForm.AddGuardian | src/pages/students/StudentForm.tsx:207-217 | below two guardians a blank, non-primary guardian is appended; otherwise nothing changes |
| StudentForm.RemoveGuardian | src/pages/students/StudentForm.tsx:379-388 | a block after the first is removed, the others kept in order, the first untouched |
| StudentForm.ActionsKeepBound | src/pages/students/StudentForm.tsx:207-217 | from one or two blocks, any clicks keep one or two blocks, the first one untouched, no later one primary |
| StudentForm.NewFormGuardians | src/pages/students/StudentForm.tsx:45-53 | the default single primary guardian stays first and primary, whatever the clicks |
| StudentForm.GuardianList.constructor | src/pages/students/StudentForm.tsx:45-53 | the form starts with exactly one blank guardian, and it is primary |
| StudentForm.GuardianList.Add | src/pages/students/StudentForm.tsx:207-217 | the field array becomes `AddGuardian` of the old one |
| StudentForm.GuardianList.Remove | src/pages/students/StudentForm.tsx:379-388 | the field array becomes `RemoveGuardian` of the old one |
| StudentForm.GuardianList.Load | src/pages/students/StudentForm.tsx:111-119 | fetched guardians replace the blocks only when there are some |
| StudentForm.DisplayedAge | src/pages/students/StudentForm.tsx:65-71 | there is an age iff a birth date is entered, and it is not negative for a birth not after today |
| StudentForm.StudentRow | src/pages/students/StudentForm.tsx:134-143 | for a form whose birth date is entered, the saved age is `calculateAge(birth_date)` and the other columns are the form's |
| StudentForm.GuardianRows | src/pages/students/StudentForm.tsx:180-187 | one row per form guardian, in order, each with the same `student_id` |
| StudentForm.GuardianMissing | src/pages/students/StudentForm.tsx:392-436 | a guardian block passes iff its name, CPF and phone are filled; otherwise the message of the first empty one in that order |
| StudentForm.Missing | src/pages/students/StudentForm.tsx:254-436 | the form passes iff the student's name, birth date, CPF, phone and address are filled and every guardian block passes; otherwise the message of the first failing rule in the form's order, a guardian's only when the student's fields pass |
| StudentForm.SaveStudent | src/pages/students/StudentForm.tsx:134-194 | a failing `required` rule stops `handleSubmit(onSubmit)` with that rule's message and no write; otherwise the student is updated or inserted, and with a student id old guardians are deleted only when editing and the form's guardians are inserted; without an id nothing follows |
| StudentForm.BlankGuardianBlocksSave | src/pages/students/StudentForm.tsx:207-217 | a guardian block added and left blank always stops the submission; when no block can be added, the decision is that of the form as it was |
| Layout.PageTitle | src/components/layout/Layout.tsx:17 | `'/'` is `'Dashboard'` |
| Layout.PageTitleIsFirstMatch | src/components/layout/Layout.tsx:14-28 | any other path gets the title of the first matching prefix in the table's order, or `'ONG Amar Sem Limites'` |
| Layout.FirstMatchFacts | src/components/layout/Layout.tsx:18-27 | the first-match search finds nothing iff no prefix matches, and otherwise the first matching one |
| Layout.RoutesExclusive | src/components/layout/Layout.tsx:18-25 | no path matches two of the prefixes |
| Layout.SubPageTitle | src/components/layout/Layout.tsx:18-25 | every path under a prefix gets that prefix's title |
| Layout.UnknownPathTitle | src/components/layout/Layout.tsx:27 | a path matching no prefix gets `'ONG Amar Sem Limites'` |
| Layout.Frame.constructor | src/components/layout/Layout.tsx:10-12 | the sidebar starts closed |
| Layout.Frame.ToggleSidebar | src/components/layout/Layout.tsx:10-12 | the toggle negates `sidebarOpen`, so toggling twice restores it |
| StudentList.FilteredStudents | src/pages/students/StudentList.tsx:42-51 | a student is listed iff it is in the list and the predicate keeps it, in the list's order |
| StudentList.FilteredStudentsFacts | src/pages/students/StudentList.tsx:42-51 | a student is kept iff the name or the email contains the term ignoring case, or the CPF contains it as typed; the filter changes nothing; an empty term keeps everyone; the order is kept |
| StudentList.SearchIgnoresTermCase | src/pages/students/StudentList.tsx:43-45 | the name and email parts ignore the case of the term |
| CourseList.FilteredCourses | src/pages/courses/CourseList.tsx:42-50 | a course is listed iff it is in the list and the predicate keeps it, in the list's order |
| CourseList.FilteredCoursesFacts | src/pages/courses/CourseList.tsx:42-50 | a course is kept iff its name or description contains the term ignoring case; the filter changes nothing; an empty term keeps all, in order |
| CourseList.DescriptionPreview | src/pages/courses/CourseList.tsx:58 | the preview is the first 50 characters followed by `'...'`, even for a short text |
| CourseList.PreviewIsPrefix | src/pages/courses/CourseList.tsx:58 | the preview starts with the description's beginning and ends in `'...'` |
| CourseList.WorkloadText | src/pages/courses/CourseList.tsx:64 | the text ends in `h` after at least one digit |
| CourseList.WorkloadTextRoundTrip | src/pages/courses/CourseList.tsx:64 | the hours can be read back from the text |
| CourseList.ShiftText | src/pages/courses/CourseList.tsx:66-75 | an undeclared shift is shown as it is |
| CourseList.ShiftTextFacts | src/pages/courses/CourseList.tsx:68-74 | morning, afternoon and evening become Manhã, Tarde and Noite, none of them a shift code |
| Health.SpecialtyFields | src/pages/health/HealthRecordsList.tsx:114-143 | an unknown type adds no field; every added field is blank and is not a common field |
| Health.BaseFields | src/pages/health/HealthRecordsList.tsx:106-112 | the base row has exactly the five common fields |
| Health.NewRecord | src/pages/health/HealthRecordsList.tsx:106-143 | the row has the student, the type, the date, the professional and the notes, plus exactly the blank fields of its type |
| Health.CreateRecord | src/pages/health/HealthRecordsList.tsx:93-147 | no student, then no professional name, are refused with no write; otherwise the row is `NewRecord` |
| Health.HealthForm.constructor | src/pages/health/HealthRecordsList.tsx:26-29 | the form starts empty, with the dental type |
| Health.HealthForm.OpenWithType | src/pages/health/HealthRecordsList.tsx:169-172 | opening sets the type and changes no other field |
| Health.HealthForm.Create | src/pages/health/HealthRecordsList.tsx:93-167 | the decision is `CreateRecord` on the fields; student, professional and notes are reset only after a successful insert |
| Health.FormatRecords | src/pages/health/HealthRecordsList.tsx:75-82 | one record per row, in order, with the student name from the joined student |
| Health.FilteredRecords | src/pages/health/HealthRecordsList.tsx:174-180 | a record is listed iff it is in the list and the predicate keeps it, in the list's order |
| Health.FilteredRecordsFacts | src/pages/health/HealthRecordsList.tsx:174-180 | a record is kept iff the student's or the professional's name contains the term ignoring case; an empty term keeps all; the order is kept |
| Settings.OrElse | src/pages/settings/SettingsPage.tsx:66-68 | a missing or empty value gives the fallback, and any other value is kept |
| Settings.SaveUser | src/pages/settings/SettingsPage.tsx:84-137 | an empty email is refused first; a new user needs a password equal to its confirmation; then the edited user is updated or a new one inserted, and the password is never written |
| Settings.EditIgnoresPasswords | src/pages/settings/SettingsPage.tsx:90-98 | when editing, the password fields play no part in the decision |
| Settings.UserModal.constructor | src/pages/settings/SettingsPage.tsx:30-35 | the form starts empty with the role `'user'` |
| Settings.UserModal.Open | src/pages/settings/SettingsPage.tsx:62-82 | opening for a user copies the email, the role (default `'user'`), the name and the phone, and clears both passwords; opening for a new user clears every field and sets the role to `'user'` |
| Settings.UserModal.Save | src/pages/settings/SettingsPage.tsx:84-137 | the save decision made from the modal's fields is the one `SaveUser` makes |
| Settings.SaveAfterOpen | src/pages/settings/SettingsPage.tsx:62-137 | saving right after opening writes an existing user back under its id, and refuses a new form for its missing email |
| Settings.RoleBadge | src/pages/settings/SettingsPage.tsx:181-194 | any role other than the four named ones gets the `'Usuário'` badge |
| Settings.RoleBadgesDistinct | src/pages/settings/SettingsPage.tsx:183-190 | the four named roles get four different badges, none of them the generic one |
| Common.FilterMembership | src/pages/students/StudentList.tsx:42 | an element is kept by `filter` iff it is in the list and satisfies the predicate |
| Common.FilterIsSubsequence | src/pages/students/StudentList.tsx:42 | `filter` keeps the list's order |
| Common.FilterFacts | src/pages/students/StudentList.tsx:42 | `filter` keeps exactly the elements that satisfy the predicate, in order |
| Common.Find | src/pages/attendance/AttendanceList.tsx:98 | `find` returns nothing iff no element satisfies the predicate, and otherwise the first element that does |
| Common.FindAt | src/pages/students/StudentDetail.tsx:150 | when position `k` is the first to satisfy the predicate, `find` returns the element at `k` |
| Common.LowerIdempotent | src/pages/students/StudentList.tsx:43 | lower-casing twice is lower-casing once |
| Common.NatToStringRoundTrip | src/pages/courses/CourseList.tsx:64 | the decimal text of a number reads back as that number |

## Left out

- Supabase queries, inserts, updates, deletes and the RPC call are not executed. The model takes the rows a query returns as inputs, and produces the payload a write would send or the refusal that stops it.
- The backend's answer to a write becomes a parameter (`inserted`). An exception thrown after a write is not modelled.
- Toasts, navigation, `setTimeout`, the Blob download, loading flags and async ordering are left out. A refusal carries the message of the handler's error path: the guards' toast text, or, for Dashboard.GenerateReport, the text of the error it throws. The user then sees the `catch` block's toast `'Erro ao gerar relatório'` instead.
- JSX, styling, Chart.js configuration, the modal and tab components, and the column `className` are left out.
- The clock is a parameter: `new Date()`, `toISOString().split('T')[0]` and the week and month cut-offs. `toLocaleDateString` is not modelled; the dashboard's dates come in as ready-made strings.
- Masks.CalculateAge: works on (year, month, day) triples, with `today` as a parameter. It does not model the parsing of the ISO string by `new Date`, or time zones.
- Aggregation.RoundPercent: works in integers as `(200 * count + total) / (2 * total)`. It may differ from the floating-point `Math.round(count / total * 100)` at exact halves, where the division is not exact.
- Common.Lower: lower-cases ASCII letters only; `toLowerCase` on other letters is not modelled.
- Aggregation.Tally, Aggregation.Counter.Add and Aggregation.CountAll: every key is counted like any other string. The JavaScript dictionaries are plain objects (`{}`), so the keys `constructor`, `toString`, `__proto__` and the other names inherited from `Object.prototype` already have a value. There, `if (!acc[key])` finds that value, adds no own entry, and the increment goes to the inherited value; `(acc[key] || 0) + 1` gives a string, or is ignored for `__proto__`. Either way the key is missing from `Object.values` or miscounted. This affects the tallies at src/pages/reports/ReportsList.tsx:111, 219 and 266 and src/pages/Dashboard.tsx:277. The model does not reproduce it: it assumes no course name or need is such a name.
- The JavaScript order of integer-like dictionary keys is not modelled. Grouped entries keep the first-occurrence order, which holds for non-integer keys.
- The sort is modelled as an insertion sort; JavaScript's `Array.prototype.sort` is stable since ES2019, and Aggregation.SortIsStable proves the same of the model, so entries with equal counts keep their tally order.
- Masks.FormatCPF and Masks.FormatPhone: the exact pattern is proved only for inputs with at most 11 digits. Beyond that, only the length bounds are stated.
- The `Math.random` data of the attendance-trend and social-referral reports is left out, as are the report tables and default case that use it, because it is nondeterministic.
- The placeholder `Math.floor(n * 0.3)` splits and the `Math.max`/`Math.min` over possibly empty lists are left out.
- `handleDeleteEvent`, delete handlers, the page effects that only fetch, and the other event handlers are left out. They only forward to the backend.
- Settings.SaveUser: the password-update branch for an edited user only shows a toast and writes nothing, so the model has no such write.
- StudentForm.Missing: the page shows the message of every failing `required` rule at once, each beside its field; the model's refusal carries only the first one in the form's order. A rule fails only on an empty value, so a value made of spaces passes, as it does in the form library.
- StudentForm.GuardianList.Load can load more than two guardians, as `fetchStudent` does. So the one-to-two bound is proved for the clicks on a new form or a form with at most two blocks, not as a class invariant.
- Health.SpecialtyFields: the specialties' extra field names are not proved pairwise disjoint between types.
- Statuses, record types, roles and shifts are strings, not enums, because the database can hold any value. The declared values are constants.
- `App.tsx`, `Login.tsx`, `Register.tsx`, `ProfilePage.tsx`, `CourseForm.tsx`, `Sidebar.tsx` and `Header.tsx` are not part of this model. `src/types/index.ts` is used only as the source of the datatypes.
