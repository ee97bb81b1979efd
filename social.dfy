/** The social assistance page, `src/pages/social/SocialAssistanceList.tsx`: the need
    checklist of the creation form, the save handler and the record list filter. */
module Social {
  import opened Common

  // ------------------------------------------------------------ the need checklist

  /** `n => n !== need` */
  function Other(need: string): string -> bool {
    (n: string) => n != need
  }

  /** `handleNeedToggle`: a selected need is removed (every occurrence), any other is
      appended at the end. */
  function ToggleNeed(needs: seq<string>, need: string): (r: seq<string>)
    ensures need in r <==> need !in needs
    ensures forall n :: n != need ==> (n in r <==> n in needs)
  {
    if need in needs then
      var r := Filter(needs, Other(need));
      forall n ensures n in r <==> n in needs && n != need {
        FilterMembership(needs, Other(need), n);
      }
      r
    else needs + [need]
  }

  /** Removal keeps the other needs in their order, addition puts the new one last. */
  lemma ToggleNeedOrder(needs: seq<string>, need: string)
    ensures need in needs ==> IsSubsequence(ToggleNeed(needs, need), needs)
    ensures need !in needs ==> ToggleNeed(needs, need) == needs + [need]
  {
    if need in needs {
      FilterIsSubsequence(needs, Other(need));
    }
  }

  /** Toggling a need that was not selected twice gives the list back. */
  lemma ToggleTwice(needs: seq<string>, need: string)
    requires need !in needs
    ensures ToggleNeed(ToggleNeed(needs, need), need) == needs
  {
    var added := needs + [need];
    assert need in added;
    FilterAppend(needs, [need], Other(need));
    FilterKeepsAll(needs, Other(need));
    assert Filter([need], Other(need)) == [];
  }

  /** A toggle keeps the checklist duplicate-free. */
  lemma ToggleKeepsNoDuplicates(needs: seq<string>, need: string)
    requires NoDuplicates(needs)
    ensures NoDuplicates(ToggleNeed(needs, need))
  {
    if need in needs {
      FilterNoDuplicates(needs, Other(need));
    }
  }

  /** The checklist after a sequence of clicks. */
  function ToggleAll(needs: seq<string>, clicks: seq<string>): seq<string>
    decreases |clicks|
  {
    if |clicks| == 0 then needs else ToggleAll(ToggleNeed(needs, clicks[0]), clicks[1..])
  }

  /** From the initial `[]`, no sequence of clicks selects a need twice. */
  lemma {:induction false} ToggleAllNoDuplicates(needs: seq<string>, clicks: seq<string>)
    requires NoDuplicates(needs)
    ensures NoDuplicates(ToggleAll(needs, clicks))
    decreases |clicks|
  {
    if |clicks| > 0 {
      ToggleKeepsNoDuplicates(needs, clicks[0]);
      ToggleAllNoDuplicates(ToggleNeed(needs, clicks[0]), clicks[1..]);
    }
  }

  lemma FromEmptyNoDuplicates(clicks: seq<string>)
    ensures NoDuplicates(ToggleAll([], clicks))
  {
    ToggleAllNoDuplicates([], clicks);
  }

  // ------------------------------------------------------------ creating a record

  /** The row `handleCreateAssistance` inserts. */
  datatype AssistanceWrite = AssistanceWrite(
    studentId: string, date: string, identifiedNeeds: seq<string>, referrals: seq<string>, notes: string)

  const NoStudent := "Por favor, selecione um aluno"
  const NoNeeds := "Por favor, selecione pelo menos uma necessidade identificada"

  /** The guards of `handleCreateAssistance`, then its payload; `today` is the ISO date. */
  function CreateAssistance(student: string, needs: seq<string>, notes: string, today: string): (o: Outcome<AssistanceWrite>)
    ensures student == "" ==> o == Rejected(NoStudent)
    ensures student != "" && |needs| == 0 ==> o == Rejected(NoNeeds)
    ensures o.Write? <==> student != "" && |needs| > 0
    ensures o.Write? ==> o.payload.studentId == student && o.payload.date == today
                         && o.payload.identifiedNeeds == needs && o.payload.referrals == []
                         && o.payload.notes == notes
  {
    if student == "" then Rejected(NoStudent)
    else if |needs| == 0 then Rejected(NoNeeds)
    else Write(AssistanceWrite(student, today, needs, [], notes))
  }

  /** The form's three state fields. */
  class AssistanceForm {
    var selectedStudent: string
    var selectedNeeds: seq<string>
    var notes: string

    ghost predicate Valid()
      reads this
    {
      NoDuplicates(selectedNeeds)
    }

    constructor()
      ensures Valid() && selectedStudent == "" && selectedNeeds == [] && notes == ""
    {
      selectedStudent, selectedNeeds, notes := "", [], "";
    }

    /** A click on a need's checkbox. */
    method Toggle(need: string)
      requires Valid()
      modifies this
      ensures Valid()
      ensures selectedNeeds == ToggleNeed(old(selectedNeeds), need)
      ensures selectedStudent == old(selectedStudent) && notes == old(notes)
    {
      ToggleKeepsNoDuplicates(selectedNeeds, need);
      if need in selectedNeeds {
        selectedNeeds := Filter(selectedNeeds, Other(need));
      } else {
        selectedNeeds := selectedNeeds + [need];
      }
    }

    /** `handleCreateAssistance`; `inserted` is whether the backend accepted the row.
        The form is cleared only after a successful insert. */
    method Create(today: string, inserted: bool) returns (o: Outcome<AssistanceWrite>)
      requires Valid()
      modifies this
      ensures Valid()
      ensures o == CreateAssistance(old(selectedStudent), old(selectedNeeds), old(notes), today)
      ensures o.Write? && inserted ==> selectedStudent == "" && selectedNeeds == [] && notes == ""
      ensures !(o.Write? && inserted) ==>
        selectedStudent == old(selectedStudent) && selectedNeeds == old(selectedNeeds) && notes == old(notes)
    {
      if selectedStudent == "" {
        o := Rejected(NoStudent);
      } else if |selectedNeeds| == 0 {
        o := Rejected(NoNeeds);
      } else {
        o := Write(AssistanceWrite(selectedStudent, today, selectedNeeds, [], notes));
        if inserted {
          selectedStudent, selectedNeeds, notes := "", [], "";
        }
      }
    }
  }

  // ------------------------------------------------------------ the record list

  /** An assistance record joined with its student (`formattedRecords`). */
  datatype SocialRecord = SocialRecord(
    id: string, studentId: string, studentName: string, date: string, identifiedNeeds: seq<string>, notes: string)

  /** A fetched row; `joinedName` is `record.students.full_name`. */
  datatype SocialRow = SocialRow(
    id: string, studentId: string, joinedName: string, date: string, identifiedNeeds: seq<string>, notes: string)

  function FormatRecords(rows: seq<SocialRow>): (r: seq<SocialRecord>)
    ensures |r| == |rows|
    ensures forall i :: 0 <= i < |rows| ==>
      r[i].id == rows[i].id && r[i].studentId == rows[i].studentId && r[i].studentName == rows[i].joinedName
      && r[i].date == rows[i].date && r[i].identifiedNeeds == rows[i].identifiedNeeds && r[i].notes == rows[i].notes
  {
    seq(|rows|, i requires 0 <= i < |rows| =>
      var w := rows[i];
      SocialRecord(w.id, w.studentId, w.joinedName, w.date, w.identifiedNeeds, w.notes))
  }

  /** The `filteredRecords` predicate. */
  predicate KeepRecord(r: SocialRecord, searchTerm: string, filter: string) {
    if searchTerm != "" then IncludesIgnoringCase(r.studentName, searchTerm)
    else if filter != "all" then filter in r.identifiedNeeds
    else true
  }

  /** `filteredRecords`: the records the predicate keeps, in order. */
  function FilteredRecords(records: seq<SocialRecord>, searchTerm: string, filter: string): (r: seq<SocialRecord>)
    ensures forall x :: x in r <==> x in records && KeepRecord(x, searchTerm, filter)
    ensures IsSubsequence(r, records)
  {
    FilterFacts(records, (r: SocialRecord) => KeepRecord(r, searchTerm, filter));
    Filter(records, (r: SocialRecord) => KeepRecord(r, searchTerm, filter))
  }

  /** A search term decides alone; without one, `'all'` keeps every record and a need keeps
      the records that identified it; the list order is kept. */
  lemma FilteredRecordsFacts(records: seq<SocialRecord>, searchTerm: string, filter: string, filter': string)
    ensures searchTerm != "" ==> FilteredRecords(records, searchTerm, filter) == FilteredRecords(records, searchTerm, filter')
    ensures searchTerm == "" && filter == "all" ==> FilteredRecords(records, searchTerm, filter) == records
    ensures IsSubsequence(FilteredRecords(records, searchTerm, filter), records)
    ensures forall r :: r in FilteredRecords(records, searchTerm, filter) <==> r in records && KeepRecord(r, searchTerm, filter)
  {
    var p := (r: SocialRecord) => KeepRecord(r, searchTerm, filter);
    var p' := (r: SocialRecord) => KeepRecord(r, searchTerm, filter');
    if searchTerm != "" {
      FilterExt(records, p, p');
    }
    if searchTerm == "" && filter == "all" {
      FilterKeepsAll(records, p);
    }
    FilterIsSubsequence(records, p);
    forall r ensures r in Filter(records, p) <==> r in records && p(r) {
      FilterMembership(records, p, r);
    }
  }
}
