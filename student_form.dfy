/** The student form, `src/pages/students/StudentForm.tsx`: its list of guardians (at most
    two entered by hand, the first never removable), the derived age and the rows written
    on submit. */
module StudentForm {
  import opened Common
  import opened Masks

  datatype Guardian = Guardian(fullName: string, cpf: string, phone: string, email: string, isPrimary: bool)

  /** A blank guardian block. */
  function BlankGuardian(isPrimary: bool): (g: Guardian)
    ensures g.fullName == "" && g.cpf == "" && g.phone == "" && g.email == "" && g.isPrimary == isPrimary
  {
    Guardian("", "", "", "", isPrimary)
  }

  const MaxGuardians := 2

  /** `addGuardian`: a blank, non-primary guardian is appended while there are fewer than two. */
  function AddGuardian(gs: seq<Guardian>): (r: seq<Guardian>)
    ensures |gs| < MaxGuardians ==> r == gs + [BlankGuardian(false)]
    ensures |gs| >= MaxGuardians ==> r == gs
  {
    if |gs| < MaxGuardians then gs + [BlankGuardian(false)] else gs
  }

  /** `remove(index)`: the button exists only for the blocks after the first. */
  function RemoveGuardian(gs: seq<Guardian>, index: int): (r: seq<Guardian>)
    requires 0 < index < |gs|
    ensures |r| == |gs| - 1 && r[0] == gs[0]
    ensures forall i :: 0 <= i < index ==> r[i] == gs[i]
    ensures forall i :: index <= i < |r| ==> r[i] == gs[i + 1]
  {
    gs[..index] + gs[index + 1..]
  }

  /** A user action on the guardian blocks. */
  datatype Action = Add | Remove(index: int)

  /** The blocks after a sequence of clicks; a remove click exists only for a block after the first. */
  function ApplyActions(gs: seq<Guardian>, actions: seq<Action>): seq<Guardian>
    decreases |actions|
  {
    if |actions| == 0 then gs
    else
      var next := match actions[0]
        case Add => AddGuardian(gs)
        case Remove(i) => if 0 < i < |gs| then RemoveGuardian(gs, i) else gs;
      ApplyActions(next, actions[1..])
  }

  /** Whatever the user clicks, a new form keeps one or two guardian blocks, the first of
      them untouched, and no added guardian is primary. */
  lemma {:induction false} ActionsKeepBound(gs: seq<Guardian>, actions: seq<Action>)
    requires 1 <= |gs| <= MaxGuardians
    requires forall i :: 1 <= i < |gs| ==> !gs[i].isPrimary
    ensures var r := ApplyActions(gs, actions);
      1 <= |r| <= MaxGuardians && r[0] == gs[0] && forall i :: 1 <= i < |r| ==> !r[i].isPrimary
    decreases |actions|
  {
    if |actions| > 0 {
      var next := match actions[0]
        case Add => AddGuardian(gs)
        case Remove(i) => if 0 < i < |gs| then RemoveGuardian(gs, i) else gs;
      assert forall i :: 1 <= i < |next| ==> !next[i].isPrimary;
      ActionsKeepBound(next, actions[1..]);
    }
  }

  /** The default form's single primary guardian stays first and primary. */
  lemma NewFormGuardians(actions: seq<Action>)
    ensures var r := ApplyActions([BlankGuardian(true)], actions);
      1 <= |r| <= MaxGuardians && r[0] == BlankGuardian(true) && forall i :: 1 <= i < |r| ==> !r[i].isPrimary
  {
    ActionsKeepBound([BlankGuardian(true)], actions);
  }

  /** The `guardians` field array of the form. Loading a student may bring more than two
      guardians from the database: only the lower bound is an invariant. */
  class GuardianList {
    var guardians: seq<Guardian>

    ghost predicate Valid()
      reads this
    {
      |guardians| >= 1
    }

    /** `defaultValues.guardians` */
    constructor()
      ensures Valid() && guardians == [BlankGuardian(true)]
    {
      guardians := [BlankGuardian(true)];
    }

    method Add()
      requires Valid()
      modifies this
      ensures Valid() && guardians == AddGuardian(old(guardians))
    {
      if |guardians| < MaxGuardians {
        guardians := guardians + [BlankGuardian(false)];
      }
    }

    method Remove(index: int)
      requires Valid() && 0 < index < |guardians|
      modifies this
      ensures Valid() && guardians == RemoveGuardian(old(guardians), index)
    {
      guardians := guardians[..index] + guardians[index + 1..];
    }

    /** `fetchStudent`: the fetched guardians replace the blocks only when there are some. */
    method Load(fetched: seq<Guardian>)
      requires Valid()
      modifies this
      ensures Valid()
      ensures |fetched| > 0 ==> guardians == fetched
      ensures |fetched| == 0 ==> guardians == old(guardians)
    {
      if |fetched| > 0 {
        guardians := fetched;
      }
    }
  }

  // ------------------------------------------------------------ age and payloads

  /** The age shown next to the birth date: none until a date is entered. */
  function DisplayedAge(birth: Option<Date>, today: Date): (age: Option<int>)
    ensures age.None? <==> birth.None?
    ensures birth.Some? && DateLe(birth.value, today) ==> age.value >= 0
  {
    match birth
    case None => None
    case Some(b) =>
      AgeFacts(b, today);
      Some(CalculateAge(b, today))
  }

  /** The student fields of the form; `birthDate` is `None` while the date input is empty. */
  datatype StudentData = StudentData(
    fullName: string, birthDate: Option<Date>, address: string, cpf: string, nis: string, phone: string, email: string)

  datatype StudentWrite = StudentWrite(
    fullName: string, birthDate: Date, age: int, address: string, cpf: string, nis: string, phone: string, email: string)

  datatype GuardianWrite = GuardianWrite(
    studentId: string, fullName: string, cpf: string, phone: string, email: string, isPrimary: bool)

  /** `studentData`: the form's fields and the age on the day of saving. `onSubmit` only
      runs once the birth date's `required` rule has passed. */
  function StudentRow(d: StudentData, today: Date): (w: StudentWrite)
    requires d.birthDate.Some?
    ensures w.age == CalculateAge(d.birthDate.value, today)
    ensures DateLe(d.birthDate.value, today) ==> w.age >= 0
    ensures w.fullName == d.fullName && w.birthDate == d.birthDate.value && w.address == d.address
            && w.cpf == d.cpf && w.nis == d.nis && w.phone == d.phone && w.email == d.email
  {
    var b := d.birthDate.value;
    AgeFacts(b, today);
    StudentWrite(d.fullName, b, CalculateAge(b, today), d.address, d.cpf, d.nis, d.phone, d.email)
  }

  /** `guardiansData`: one row per block, in order, all tagged with the student's id. */
  function GuardianRows(studentId: string, gs: seq<Guardian>): (r: seq<GuardianWrite>)
    ensures |r| == |gs|
    ensures forall i :: 0 <= i < |gs| ==> r[i].studentId == studentId
    ensures forall i :: 0 <= i < |gs| ==>
      Guardian(r[i].fullName, r[i].cpf, r[i].phone, r[i].email, r[i].isPrimary) == gs[i]
  {
    seq(|gs|, i requires 0 <= i < |gs| =>
      var g := gs[i];
      GuardianWrite(studentId, g.fullName, g.cpf, g.phone, g.email, g.isPrimary))
  }

  // ------------------------------------------------------------ validation and submit

  const NameRequired := "Nome é obrigatório"
  const BirthDateRequired := "Data de nascimento é obrigatória"
  const CpfRequired := "CPF é obrigatório"
  const PhoneRequired := "Telefone é obrigatório"
  const AddressRequired := "Endereço é obrigatório"

  /** The first `required` rule of a guardian block that fails: name, then CPF, then phone. */
  function GuardianMissing(g: Guardian): (m: Option<string>)
    ensures m.None? <==> g.fullName != "" && g.cpf != "" && g.phone != ""
    ensures g.fullName == "" ==> m == Some(NameRequired)
    ensures g.fullName != "" && g.cpf == "" ==> m == Some(CpfRequired)
    ensures g.fullName != "" && g.cpf != "" && g.phone == "" ==> m == Some(PhoneRequired)
  {
    if g.fullName == "" then Some(NameRequired)
    else if g.cpf == "" then Some(CpfRequired)
    else if g.phone == "" then Some(PhoneRequired)
    else None
  }

  function Incomplete(g: Guardian): bool {
    GuardianMissing(g).Some?
  }

  /** The first failing `required` rule of the form, in the order of its fields: the
      student's name, birth date, CPF, phone and address, then each guardian block in turn.
      `handleSubmit` calls `onSubmit` only when there is none. */
  function Missing(d: StudentData, gs: seq<Guardian>): (m: Option<string>)
    ensures m.None? <==> d.fullName != "" && d.birthDate.Some? && d.cpf != "" && d.phone != "" && d.address != ""
                         && forall i :: 0 <= i < |gs| ==> GuardianMissing(gs[i]).None?
    ensures d.fullName == "" ==> m == Some(NameRequired)
    ensures d.fullName != "" && d.birthDate.None? ==> m == Some(BirthDateRequired)
    ensures d.fullName != "" && d.birthDate.Some? && d.cpf == "" ==> m == Some(CpfRequired)
    ensures d.fullName != "" && d.birthDate.Some? && d.cpf != "" && d.phone == "" ==> m == Some(PhoneRequired)
    ensures d.fullName != "" && d.birthDate.Some? && d.cpf != "" && d.phone != "" && d.address == "" ==> m == Some(AddressRequired)
    ensures d.fullName != "" && d.birthDate.Some? && d.cpf != "" && d.phone != "" && d.address != "" && m.Some? ==>
      exists i :: 0 <= i < |gs| && m == GuardianMissing(gs[i])
                  && forall j :: 0 <= j < i ==> GuardianMissing(gs[j]).None?
  {
    if d.fullName == "" then Some(NameRequired)
    else if d.birthDate.None? then Some(BirthDateRequired)
    else if d.cpf == "" then Some(CpfRequired)
    else if d.phone == "" then Some(PhoneRequired)
    else if d.address == "" then Some(AddressRequired)
    else
      match Find(gs, Incomplete)
      case None => None
      case Some(g) => GuardianMissing(g)
  }

  /** The writes of `onSubmit`: the student (an update of `editingId`, or an insert that
      yields `insertedId`), then, when the student has an id, the removal of its old
      guardians (editing only) and the insert of the form's guardians. */
  datatype SavePlan = SavePlan(
    student: StudentWrite, updateId: Option<string>, replaceGuardians: bool, guardians: seq<GuardianWrite>)

  /** `handleSubmit(onSubmit)`: a failing `required` rule stops the submission with its
      message and nothing is written; otherwise the writes of `onSubmit`. */
  function SaveStudent(editingId: Option<string>, insertedId: string, d: StudentData, gs: seq<Guardian>, today: Date)
    : (o: Outcome<SavePlan>)
    ensures o.Rejected? <==> Missing(d, gs).Some?
    ensures o.Rejected? ==> o.message == Missing(d, gs).value
    ensures o.Write? ==> d.birthDate.Some? && o.payload.student == StudentRow(d, today) && o.payload.updateId == editingId
    ensures o.Write? ==> var sid := if editingId.Some? then editingId.value else insertedId;
      o.payload.replaceGuardians == (editingId.Some? && sid != "")
      && (sid != "" ==> o.payload.guardians == GuardianRows(sid, gs))
      && (sid == "" ==> o.payload.guardians == [])
  {
    match Missing(d, gs)
    case Some(message) => Rejected(message)
    case None =>
      var sid := if editingId.Some? then editingId.value else insertedId;
      Write(SavePlan(StudentRow(d, today), editingId, editingId.Some? && sid != "",
                     if sid != "" then GuardianRows(sid, gs) else []))
  }

  /** A guardian block left blank, as `addGuardian` creates it, stops the submission. */
  lemma BlankGuardianBlocksSave(editingId: Option<string>, insertedId: string, d: StudentData,
                                gs: seq<Guardian>, today: Date)
    ensures SaveStudent(editingId, insertedId, d, AddGuardian(gs), today).Rejected? <==> |gs| < MaxGuardians || Missing(d, gs).Some?
  {
    if |gs| < MaxGuardians {
      var gs' := AddGuardian(gs);
      assert gs'[|gs|] == BlankGuardian(false);
    }
  }
}
