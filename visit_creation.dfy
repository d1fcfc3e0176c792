/**
 * Creating a visit request, as both create handlers do it once their auth
 * gates have passed: the required-field check, the student find / create /
 * update-by-diff step, and the insert of a PENDING request with a fresh QR
 * token. There is no transaction: a student written in the second step stays
 * written when the third fails.
 */
module VisitCreation {
  import opened Wrappers
  import opened Model
  import opened Seqs
  import opened Store

  /** The body of a create request. */
  datatype VisitForm = VisitForm(
    studentName: Option<string>,
    rollNumber: Option<string>,
    hostelName: Option<string>,
    roomNumber: Option<string>,
    degree: Option<string>,
    branch: Option<string>,
    year: Option<int>,
    vehicleNo: Option<string>,
    purpose: Option<string>,
    validFrom: Option<Time>,
    validUntil: Option<Time>)

  /** The values the id and token generators hand out for one request. */
  datatype FreshIds = FreshIds(studentId: Id, visitId: Id, qrCode: string)

  /** The five fields the handlers insist on; nothing relates `validFrom` to `validUntil`. */
  predicate HasRequired(f: VisitForm) {
    Given(f.studentName) && Given(f.rollNumber) && Given(f.hostelName) && f.validFrom.Some? && f.validUntil.Some?
  }

  /** JavaScript truthiness of an optional number. */
  predicate YearGiven(y: Option<int>) {
    y.Some? && y.value != 0
  }

  /** The student lookup: same roll number, or same name and same hostel. */
  predicate Matches(s: Student, f: VisitForm) {
    f.rollNumber == Some(s.rollNumber) || (f.studentName == Some(s.name) && f.hostelName == Some(s.hostelName))
  }

  /** The student row created when none matches, with the source's defaults. */
  function NewStudent(f: VisitForm, id: Id): (s: Student)
    requires HasRequired(f)
    ensures Matches(s, f)
    ensures s.course == (if Given(f.degree) then f.degree.value else "Not specified")
    ensures s.branch == (if Given(f.branch) then f.branch.value else "Not specified")
    ensures s.year == (if YearGiven(f.year) then f.year.value else 1)
    ensures s.roomNumber == (if Given(f.roomNumber) then f.roomNumber else None)
  {
    Student(id, f.studentName.value, f.rollNumber.value, OrElse(f.degree, "Not specified"),
            OrElse(f.branch, "Not specified"), if YearGiven(f.year) then f.year.value else 1,
            f.hostelName.value, if Given(f.roomNumber) then f.roomNumber else None)
  }

  /** The `updateData` dictionary: one optional entry per student column. */
  datatype Patch = Patch(
    rollNumber: Option<string>,
    roomNumber: Option<string>,
    course: Option<string>,
    branch: Option<string>,
    year: Option<int>,
    name: Option<string>,
    hostelName: Option<string>)

  const NoChange: Patch := Patch(None, None, None, None, None, None, None)

  /** A provided string field that differs from the stored value. */
  function Changed(given: Option<string>, stored: string): Option<string> {
    if Given(given) && given.value != stored then given else None
  }

  /** The entries `updateData` gets: provided fields whose values differ from the stored row. */
  function Diff(s: Student, f: VisitForm): Patch {
    Patch(
      Changed(f.rollNumber, s.rollNumber),
      if Given(f.roomNumber) && s.roomNumber != f.roomNumber then f.roomNumber else None,
      Changed(f.degree, s.course),
      Changed(f.branch, s.branch),
      if YearGiven(f.year) && s.year != f.year.value then f.year else None,
      Changed(f.studentName, s.name),
      Changed(f.hostelName, s.hostelName))
  }

  /** `student.update({ data: updateData })`: the patched columns, the others kept. */
  function Apply(s: Student, p: Patch): Student {
    Student(
      s.id,
      if p.name.Some? then p.name.value else s.name,
      if p.rollNumber.Some? then p.rollNumber.value else s.rollNumber,
      if p.course.Some? then p.course.value else s.course,
      if p.branch.Some? then p.branch.value else s.branch,
      if p.year.Some? then p.year.value else s.year,
      if p.hostelName.Some? then p.hostelName.value else s.hostelName,
      if p.roomNumber.Some? then p.roomNumber else s.roomNumber)
  }

  /** The handlers' field-by-field construction of `updateData`. */
  method BuildUpdate(s: Student, f: VisitForm) returns (p: Patch)
    ensures p == Diff(s, f)
  {
    p := NoChange;
    if Given(f.rollNumber) && s.rollNumber != f.rollNumber.value { p := p.(rollNumber := f.rollNumber); }
    if Given(f.roomNumber) && s.roomNumber != f.roomNumber { p := p.(roomNumber := f.roomNumber); }
    if Given(f.degree) && s.course != f.degree.value { p := p.(course := f.degree); }
    if Given(f.branch) && s.branch != f.branch.value { p := p.(branch := f.branch); }
    if YearGiven(f.year) && s.year != f.year.value { p := p.(year := f.year); }
    if Given(f.studentName) && s.name != f.studentName.value { p := p.(name := f.studentName); }
    if Given(f.hostelName) && s.hostelName != f.hostelName.value { p := p.(hostelName := f.hostelName); }
  }

  /** The student agrees with every field the form provides. */
  predicate AgreesWith(s: Student, f: VisitForm) {
    && (Given(f.rollNumber) ==> s.rollNumber == f.rollNumber.value)
    && (Given(f.roomNumber) ==> s.roomNumber == f.roomNumber)
    && (Given(f.degree) ==> s.course == f.degree.value)
    && (Given(f.branch) ==> s.branch == f.branch.value)
    && (YearGiven(f.year) ==> s.year == f.year.value)
    && (Given(f.studentName) ==> s.name == f.studentName.value)
    && (Given(f.hostelName) ==> s.hostelName == f.hostelName.value)
  }

  /** Only provided fields that differ enter the diff, so it is empty exactly when the row already agrees. */
  lemma DiffEmptyIffAgrees(s: Student, f: VisitForm)
    ensures Diff(s, f) == NoChange <==> AgreesWith(s, f)
  {
  }

  /**
   * Applying the diff makes the row agree with every provided field and keeps
   * every other column (and the id); a second diff is then empty.
   */
  lemma ApplyDiff(s: Student, f: VisitForm)
    ensures var s' := Apply(s, Diff(s, f));
            && AgreesWith(s', f)
            && s'.id == s.id
            && (!Given(f.rollNumber) ==> s'.rollNumber == s.rollNumber)
            && (!Given(f.roomNumber) ==> s'.roomNumber == s.roomNumber)
            && (!Given(f.degree) ==> s'.course == s.course)
            && (!Given(f.branch) ==> s'.branch == s.branch)
            && (!YearGiven(f.year) ==> s'.year == s.year)
            && (!Given(f.studentName) ==> s'.name == s.name)
            && (!Given(f.hostelName) ==> s'.hostelName == s.hostelName)
            && Diff(s', f) == NoChange
  {
  }

  /** An empty diff writes nothing: applying it gives the row back. */
  lemma ApplyNoChange(s: Student)
    ensures Apply(s, NoChange) == s
  {
  }

  predicate RollTaken(students: seq<Student>, roll: string, except: nat) {
    exists j :: 0 <= j < |students| && j != except && students[j].rollNumber == roll
  }

  /**
   * The student step: the first matching row, patched by its diff; or a new
   * row when none matches. None when the store refuses the write: a duplicate
   * roll number on update, or a taken id on insert.
   */
  function SyncStudent(db: Db, f: VisitForm, newId: Id): (r: Option<(Student, Db)>)
    requires HasRequired(f)
    ensures r.Some? ==> AgreesWith(r.value.0, f) && r.value.0 in r.value.1.students
    ensures r.Some? ==> r.value.1.visits == db.visits && r.value.1.scanLogs == db.scanLogs && r.value.1.approvals == db.approvals
    ensures r.None? ==> HasStudent(db, newId) || exists j :: 0 <= j < |db.students| && db.students[j].rollNumber == f.rollNumber.value
    ensures FirstIndex(db.students, (s: Student) => Matches(s, f)).None? && r.Some? ==>
              r.value == (NewStudent(f, newId), db.(students := db.students + [NewStudent(f, newId)]))
    ensures FirstIndex(db.students, (s: Student) => Matches(s, f)).None? ==> (r.None? <==> HasStudent(db, newId))
    ensures var m := FirstIndex(db.students, (s: Student) => Matches(s, f));
            m.Some? && r.Some? ==> r.value.0.id == db.students[m.value].id && r.value.1.students == db.students[m.value := r.value.0]
    ensures var m := FirstIndex(db.students, (s: Student) => Matches(s, f));
            m.Some? && r.Some? ==> r.value.0 == Apply(db.students[m.value], Diff(db.students[m.value], f))
    ensures var m := FirstIndex(db.students, (s: Student) => Matches(s, f));
            m.Some? && AgreesWith(db.students[m.value], f) ==> r == Some((db.students[m.value], db))
  {
    match FirstIndex(db.students, (s: Student) => Matches(s, f))
    case None =>
      if HasStudent(db, newId) then None
      else
        var s := NewStudent(f, newId);
        Some((s, db.(students := db.students + [s])))
    case Some(k) =>
      var p := Diff(db.students[k], f);
      if p == NoChange then
        DiffEmptyIffAgrees(db.students[k], f);
        Some((db.students[k], db))
      else if p.rollNumber.Some? && RollTaken(db.students, p.rollNumber.value, k) then None
      else
        var s := Apply(db.students[k], p);
        ApplyDiff(db.students[k], f);
        assert db.students[k := s][k] == s;
        Some((s, db.(students := db.students[k := s])))
  }

  /** The student step keeps both unique columns unique: the store refuses exactly the writes that would break them. */
  lemma SyncKeepsStudentsUnique(db: Db, f: VisitForm, newId: Id)
    requires HasRequired(f) && UniqueStudents(db.students)
    ensures var r := SyncStudent(db, f, newId);
            r.Some? ==> UniqueStudents(r.value.1.students)
  {
    var students := db.students;
    match FirstIndex(students, (s: Student) => Matches(s, f))
    case None =>
      if !HasStudent(db, newId) {
        var s := NewStudent(f, newId);
        var t := students + [s];
        forall i, j | 0 <= i < j < |t| ensures t[i].id != t[j].id && t[i].rollNumber != t[j].rollNumber {
          if j == |students| {
            assert t[i] == students[i] && t[i] in students;
            assert !Matches(students[i], f);
          }
        }
      }
    case Some(k) =>
      var p := Diff(students[k], f);
      if p != NoChange && !(p.rollNumber.Some? && RollTaken(students, p.rollNumber.value, k)) {
        var s := Apply(students[k], p);
        var t := students[k := s];
        forall i, j | 0 <= i < j < |t| ensures t[i].id != t[j].id && t[i].rollNumber != t[j].rollNumber {
          if i == k || j == k {
            var o := if i == k then j else i;
            assert t[o] == students[o];
            if p.rollNumber.None? {
              assert s.rollNumber == students[k].rollNumber;
            }
          }
        }
      }
  }

  predicate QrInUse(db: Db, qrCode: string) {
    exists v :: v in db.visits && v.qrCode == qrCode
  }

  /** The new request: PENDING, owned by the caller, for the synced student, with the fresh token. */
  function NewVisit(f: VisitForm, parentId: Id, studentId: Id, ids: FreshIds, now: Time): VisitRequest
    requires HasRequired(f)
  {
    VisitRequest(ids.visitId, parentId, studentId, Pending, ids.qrCode, f.validFrom.value, f.validUntil.value,
                 now, f.vehicleNo, f.purpose)
  }

  /** Create, after the gates: 400 on a missing field, 500 when the store refuses an insert, else 201. */
  function Create(db: Db, parentId: Id, f: VisitForm, ids: FreshIds, now: Time): (r: (Reply<VisitRequest>, Db))
    ensures !HasRequired(f) ==> r == (Err(400, MissingField), db)
    ensures r.0.Ok? ==> r.0.code == 201 && r.1.visits == db.visits + [r.0.value]
    ensures r.0.Ok? ==> r.0.value.status == Pending && r.0.value.parentId == parentId && r.0.value.qrCode == ids.qrCode
    ensures r.0.Ok? ==> r.0.value.id == ids.visitId && Some(r.0.value.validUntil) == f.validUntil
    ensures r.0.Err? ==> r.1.visits == db.visits
    ensures r.0.Ok? ==> !QrInUse(db, ids.qrCode) && !HasVisit(db, ids.visitId)
    ensures r.1.scanLogs == db.scanLogs && r.1.approvals == db.approvals
    ensures r.0.Ok? ==> exists s :: s in r.1.students && s.id == r.0.value.studentId && AgreesWith(s, f)
    ensures HasRequired(f) && SyncStudent(db, f, ids.studentId).None? ==> r == (Err(500, StoreFailure), db)
    ensures HasRequired(f) && SyncStudent(db, f, ids.studentId).Some? ==>
              r.1.students == SyncStudent(db, f, ids.studentId).value.1.students
    ensures r.0.Ok? ==> HasRequired(f) && SyncStudent(db, f, ids.studentId).Some?
    ensures r.0.Ok? ==> r.0.value.studentId == SyncStudent(db, f, ids.studentId).value.0.id
  {
    if !HasRequired(f) then (Err(400, MissingField), db)
    else
      match SyncStudent(db, f, ids.studentId)
      case None => (Err(500, StoreFailure), db)
      case Some((s, db1)) =>
        if HasVisit(db1, ids.visitId) || QrInUse(db1, ids.qrCode) then (Err(500, StoreFailure), db1)
        else
          var v := NewVisit(f, parentId, s.id, ids, now);
          (Ok(201, v), db1.(visits := db1.visits + [v]))
  }

  /**
   * Visit creation keeps student ids and roll numbers unique, on success and
   * on the 500 that follows a student write (the synced row stays).
   */
  lemma CreateKeepsStudentsUnique(db: Db, parentId: Id, f: VisitForm, ids: FreshIds, now: Time)
    requires UniqueStudents(db.students)
    ensures UniqueStudents(Create(db, parentId, f, ids, now).1.students)
  {
    if HasRequired(f) {
      SyncKeepsStudentsUnique(db, f, ids.studentId);
    }
  }

  /** A created request's window is stored as given, even when `validFrom > validUntil`. */
  lemma CreateAcceptsReversedWindow(db: Db, parentId: Id, f: VisitForm, ids: FreshIds, now: Time)
    requires Create(db, parentId, f, ids, now).0.Ok?
    ensures var v := Create(db, parentId, f, ids, now).0.value;
            v.validFrom == f.validFrom.value && v.validUntil == f.validUntil.value
  {
  }

  /** The handlers' sequence of store calls. */
  method CreateVisit(db: Database, parentId: Id, f: VisitForm, ids: FreshIds, now: Time) returns (reply: Reply<VisitRequest>)
    modifies db
    ensures (reply, db.Snapshot()) == Create(old(db.Snapshot()), parentId, f, ids, now)
  {
    if !HasRequired(f) {
      return Err(400, MissingField);
    }
    var student: Student;
    var found := FirstIndex(db.students, (s: Student) => Matches(s, f));
    if found.None? {
      if HasStudent(db.Snapshot(), ids.studentId) {
        return Err(500, StoreFailure);
      }
      student := NewStudent(f, ids.studentId);
      db.InsertStudent(student);
    } else {
      var k := found.value;
      student := db.students[k];
      var updateData := BuildUpdate(student, f);
      if updateData != NoChange {
        if updateData.rollNumber.Some? && RollTaken(db.students, updateData.rollNumber.value, k) {
          return Err(500, StoreFailure);
        }
        student := Apply(student, updateData);
        db.UpdateStudent(k, student);
      }
    }
    if HasVisit(db.Snapshot(), ids.visitId) || QrInUse(db.Snapshot(), ids.qrCode) {
      return Err(500, StoreFailure);
    }
    var visit := NewVisit(f, parentId, student.id, ids, now);
    db.InsertVisit(visit);
    reply := Ok(201, visit);
  }
}
