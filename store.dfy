/**
 * The database the route handlers share: the visit-request, student, scan-log
 * and approval tables, each a sequence of rows in insertion order. `Db` is a
 * snapshot of the tables (what the specification functions read and return);
 * `Database` is the mutable store the handler methods write to, one primitive
 * write per store call of the source.
 */
module Store {
  import opened Wrappers
  import opened Model
  import opened Seqs

  datatype Db = Db(
    visits: seq<VisitRequest>,
    students: seq<Student>,
    scanLogs: seq<ScanLog>,
    approvals: seq<Approval>)

  const EmptyDb: Db := Db([], [], [], [])

  /** `findUnique({ where: { qrCode } })`. */
  function VisitByQr(db: Db, qrCode: string): Option<nat> {
    FirstIndex(db.visits, (v: VisitRequest) => v.qrCode == qrCode)
  }

  /** `findUnique({ where: { id } })` on the visit-request table. */
  function VisitById(db: Db, id: Id): Option<nat> {
    FirstIndex(db.visits, (v: VisitRequest) => v.id == id)
  }

  predicate HasVisit(db: Db, id: Id) {
    exists v :: v in db.visits && v.id == id
  }

  predicate HasStudent(db: Db, id: Id) {
    exists s :: s in db.students && s.id == id
  }

  /** The student table's two unique columns: the id and the roll number. */
  predicate UniqueStudents(students: seq<Student>) {
    forall i, j :: 0 <= i < j < |students| ==>
      students[i].id != students[j].id && students[i].rollNumber != students[j].rollNumber
  }

  /** The student row a visit request refers to (the `student` relation). */
  function StudentOf(db: Db, v: VisitRequest): Option<Student> {
    match FirstIndex(db.students, (s: Student) => s.id == v.studentId)
    case None => None
    case Some(k) => Some(db.students[k])
  }

  /** The log rows of one visit request, oldest first. */
  function LogsOf(db: Db, visitId: Id): seq<ScanLog> {
    Filter(db.scanLogs, (l: ScanLog) => l.visitRequestId == visitId)
  }

  /**
   * The most recent log of a visit request (`scanLogs: { orderBy: { timestamp:
   * 'desc' }, take: 1 }`): the last one appended.
   */
  function LatestLog(db: Db, visitId: Id): Option<ScanLog> {
    LatestLogIn(db.scanLogs, visitId)
  }

  /** The last log of a visit request in a sequence of logs. */
  function LatestLogIn(logs: seq<ScanLog>, visitId: Id): Option<ScanLog> {
    match LastIndex(logs, (l: ScanLog) => l.visitRequestId == visitId)
    case None => None
    case Some(k) => Some(logs[k])
  }

  /** The most recent ENTRY log of a visit request. */
  function LatestEntry(db: Db, visitId: Id): Option<ScanLog> {
    match LastIndex(db.scanLogs, (l: ScanLog) => l.visitRequestId == visitId && l.kind == Entry)
    case None => None
    case Some(k) => Some(db.scanLogs[k])
  }

  predicate HasEntryLog(db: Db, visitId: Id) {
    exists l :: l in db.scanLogs && l.visitRequestId == visitId && l.kind == Entry
  }

  /** Some approval of the visit request is a `true` decision. */
  predicate HasTrueApproval(db: Db, visitId: Id) {
    exists a :: a in db.approvals && a.visitRequestId == visitId && a.decision
  }

  predicate HasApproval(db: Db, visitId: Id) {
    exists a :: a in db.approvals && a.visitRequestId == visitId
  }

  /** The table after overwriting the status of row `i`. */
  function WithStatus(db: Db, i: nat, s: Status): (r: Db)
    requires i < |db.visits|
    ensures |r.visits| == |db.visits| && r.visits[i].status == s
    ensures forall j :: 0 <= j < |db.visits| && j != i ==> r.visits[j] == db.visits[j]
    ensures r.visits[i] == db.visits[i].(status := s)
    ensures r.students == db.students && r.scanLogs == db.scanLogs && r.approvals == db.approvals
  {
    db.(visits := db.visits[i := db.visits[i].(status := s)])
  }

  /**
   * What both approve handlers write: one approval row, then the status
   * APPROVED or REJECTED, whatever the status was.
   */
  function Decide(db: Db, i: nat, wardenId: Id, decision: bool, remarks: Option<string>): (r: Db)
    requires i < |db.visits|
    ensures r.approvals == db.approvals + [Approval(db.visits[i].id, wardenId, decision, remarks)]
    ensures r.visits == db.visits[i := db.visits[i].(status := if decision then Approved else Rejected)]
    ensures r.students == db.students && r.scanLogs == db.scanLogs
  {
    var added := db.(approvals := db.approvals + [Approval(db.visits[i].id, wardenId, decision, remarks)]);
    WithStatus(added, i, if decision then Approved else Rejected)
  }

  /** The mutable store: the four tables, written one row at a time. */
  class Database {
    var visits: seq<VisitRequest>
    var students: seq<Student>
    var scanLogs: seq<ScanLog>
    var approvals: seq<Approval>

    function Snapshot(): Db
      reads this
    {
      Db(visits, students, scanLogs, approvals)
    }

    constructor (db: Db)
      ensures Snapshot() == db
    {
      visits, students, scanLogs, approvals := db.visits, db.students, db.scanLogs, db.approvals;
    }

    /** `scanLog.create`. */
    method AppendScanLog(l: ScanLog)
      modifies this
      ensures Snapshot() == old(Snapshot()).(scanLogs := old(scanLogs) + [l])
    {
      scanLogs := scanLogs + [l];
    }

    /** `approval.create`. */
    method AppendApproval(a: Approval)
      modifies this
      ensures Snapshot() == old(Snapshot()).(approvals := old(approvals) + [a])
    {
      approvals := approvals + [a];
    }

    /** `visitRequest.update({ data: { status } })` on row `i`. */
    method UpdateStatus(i: nat, s: Status)
      requires i < |visits|
      modifies this
      ensures Snapshot() == WithStatus(old(Snapshot()), i, s)
    {
      visits := visits[i := visits[i].(status := s)];
    }

    /** `visitRequest.create`. */
    method InsertVisit(v: VisitRequest)
      modifies this
      ensures Snapshot() == old(Snapshot()).(visits := old(visits) + [v])
    {
      visits := visits + [v];
    }

    /** `student.create`. */
    method InsertStudent(s: Student)
      modifies this
      ensures Snapshot() == old(Snapshot()).(students := old(students) + [s])
    {
      students := students + [s];
    }

    /** `student.update` on row `k`. */
    method UpdateStudent(k: nat, s: Student)
      requires k < |students|
      modifies this
      ensures Snapshot() == old(Snapshot()).(students := old(students)[k := s])
    {
      students := students[k := s];
    }
  }
}
