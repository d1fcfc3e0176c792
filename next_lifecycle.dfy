/**
 * The lifecycle the Next.js routes give a pass, composed from their effects
 * on one store: creation, both scan engines (the Next.js one and the Express
 * one), and approval by either approve handler (the two write the same rows).
 * From the empty store, a pass is INSIDE only while no approval for it
 * exists, so the Next.js engine's "exit from INSIDE" branch can never
 * succeed; and an APPROVED pass exits without ever having entered.
 */
module NextLifecycle {
  import opened Wrappers
  import opened Model
  import opened Store
  import VisitCreation
  import NextScan
  import NextVisits
  import ExpressVisits
  import ExpressScan

  /**
   * One request to the system. `ApproveBackend` and `ScanBackend` are the
   * Express handlers after their WARDEN and SECURITY gates.
   */
  datatype Event =
    | Create(caller: Option<User>, form: VisitCreation.VisitForm, ids: VisitCreation.FreshIds, now: Time)
    | Scan(caller: Option<User>, qrCode: Option<string>, now: Time)
    | Approve(caller: Option<User>, id: Option<Id>, d: ExpressVisits.Decision)
    | ApproveBackend(warden: User, visitId: Id, decision: ExpressVisits.Decision)
    | ScanBackend(guard: User, qrCode: Option<string>, scanType: Option<ScanKind>,
                  location: Option<string>, remarks: Option<string>, now: Time)

  function Step(db: Db, e: Event): Db {
    match e
    case Create(caller, f, ids, now) => NextVisits.Create(db, caller, f, ids, now).1
    case Scan(caller, qrCode, now) => NextScan.Record(db, caller, qrCode, now).1
    case Approve(caller, id, d) => NextVisits.Approve(db, caller, id, d).1
    case ApproveBackend(w, id, d) => ExpressVisits.Approve(db, w, id, d).1
    case ScanBackend(g, qrCode, kind, location, remarks, now) => ExpressScan.Scan(db, g, qrCode, kind, location, remarks, now).1
  }

  /** The store after a sequence of requests, in order. */
  function Run(db: Db, trace: seq<Event>): Db
    decreases |trace|
  {
    if |trace| == 0 then db else Run(Step(db, trace[0]), trace[1..])
  }

  predicate UniqueVisitIds(visits: seq<VisitRequest>) {
    forall i, j :: 0 <= i < j < |visits| ==> visits[i].id != visits[j].id
  }

  /**
   * The invariant of the composed system: visit ids are unique, every
   * approval names a stored visit, and no PENDING or INSIDE pass has an
   * approval.
   */
  predicate Inv(db: Db) {
    && UniqueVisitIds(db.visits)
    && (forall a :: a in db.approvals ==> HasVisit(db, a.visitRequestId))
    && (forall j :: 0 <= j < |db.visits| ==> db.visits[j].status in {Pending, Inside} ==> !HasApproval(db, db.visits[j].id))
  }

  lemma CreatePreservesInv(db: Db, parentId: Id, f: VisitCreation.VisitForm, ids: VisitCreation.FreshIds, now: Time)
    requires Inv(db)
    ensures Inv(VisitCreation.Create(db, parentId, f, ids, now).1)
  {
    var r := VisitCreation.Create(db, parentId, f, ids, now);
    var db' := r.1;
    assert db'.approvals == db.approvals;
    if r.0.Ok? {
      var v := r.0.value;
      assert db'.visits == db.visits + [v];
      forall i, j | 0 <= i < j < |db'.visits| ensures db'.visits[i].id != db'.visits[j].id {
        if j == |db.visits| {
          assert db'.visits[i] in db.visits;
        }
      }
      forall a | a in db'.approvals ensures HasVisit(db', a.visitRequestId) {
        var w :| w in db.visits && w.id == a.visitRequestId;
        assert w in db'.visits;
      }
      assert !HasApproval(db', v.id);
      forall j | 0 <= j < |db'.visits| && db'.visits[j].status in {Pending, Inside}
        ensures !HasApproval(db', db'.visits[j].id)
      {
        if j < |db.visits| {
          assert db'.visits[j] == db.visits[j];
        }
      }
    } else {
      assert db'.visits == db.visits;
      forall a | a in db'.approvals ensures HasVisit(db', a.visitRequestId) {
        assert HasVisit(db, a.visitRequestId);
      }
    }
  }

  lemma RecordPreservesInv(db: Db, caller: Option<User>, qrCode: Option<string>, now: Time)
    requires Inv(db)
    ensures Inv(NextScan.Record(db, caller, qrCode, now).1)
  {
    var r := NextScan.Record(db, caller, qrCode, now);
    if r.0.Ok? {
      NextScan.RecordSuccessWrites(db, caller, qrCode, now);
      var i := VisitByQr(db, qrCode.value).value;
      var db' := r.1;
      assert db'.visits == db.visits[i := r.0.value.visit];
      assert r.0.value.visit.status == Inside ==> db.visits[i].status == Pending;
      forall j | 0 <= j < |db'.visits| ensures db'.visits[j].id == db.visits[j].id {
      }
      forall a | a in db'.approvals ensures HasVisit(db', a.visitRequestId) {
        var w :| w in db.visits && w.id == a.visitRequestId;
        var k :| 0 <= k < |db.visits| && db.visits[k] == w;
        assert db'.visits[k].id == w.id;
      }
    }
  }

  lemma DecidePreservesInv(db: Db, warden: User, id: Id, d: ExpressVisits.Decision)
    requires Inv(db)
    ensures Inv(ExpressVisits.Approve(db, warden, id, d).1)
  {
    var r := ExpressVisits.Approve(db, warden, id, d);
    if r.0.Ok? {
      var i := VisitById(db, id).value;
      var decision := d.status.value;
      var db' := r.1;
      assert db' == Decide(db, i, warden.id, decision, d.remarks);
      var added := Approval(db.visits[i].id, warden.id, decision, d.remarks);
      assert db'.approvals == db.approvals + [added];
      forall j | 0 <= j < |db'.visits| ensures db'.visits[j].id == db.visits[j].id {
      }
      forall a | a in db'.approvals ensures HasVisit(db', a.visitRequestId) {
        var w :| w in db.visits + [db.visits[i]] && w.id == a.visitRequestId;
        var k :| 0 <= k < |db.visits| && db.visits[k] == w;
        assert db'.visits[k].id == w.id;
      }
      forall j | 0 <= j < |db'.visits| && db'.visits[j].status in {Pending, Inside}
        ensures !HasApproval(db', db'.visits[j].id)
      {
        assert j != i;
        assert db'.visits[j] == db.visits[j];
        assert db.visits[j].id != added.visitRequestId;
      }
    }
  }

  /** The Express scan engine writes no approval and moves a pass only from APPROVED to COMPLETED. */
  lemma BackendScanPreservesInv(db: Db, guard: User, qrCode: Option<string>, kind: Option<ScanKind>,
                                location: Option<string>, remarks: Option<string>, now: Time)
    requires Inv(db)
    ensures Inv(ExpressScan.Scan(db, guard, qrCode, kind, location, remarks, now).1)
  {
    var r := ExpressScan.Scan(db, guard, qrCode, kind, location, remarks, now);
    if r.0.Ok? {
      var i := VisitByQr(db, qrCode.value).value;
      var db' := r.1;
      assert db'.visits == db.visits || db'.visits == db.visits[i := db.visits[i].(status := Completed)];
      forall j | 0 <= j < |db'.visits| ensures db'.visits[j].id == db.visits[j].id {
      }
      forall a | a in db'.approvals ensures HasVisit(db', a.visitRequestId) {
        var w :| w in db.visits && w.id == a.visitRequestId;
        var k :| 0 <= k < |db.visits| && db.visits[k] == w;
        assert db'.visits[k].id == w.id;
      }
      forall j | 0 <= j < |db'.visits| && db'.visits[j].status in {Pending, Inside}
        ensures !HasApproval(db', db'.visits[j].id)
      {
        assert db'.visits[j] == db.visits[j];
      }
    }
  }

  lemma StepPreservesInv(db: Db, e: Event)
    requires Inv(db)
    ensures Inv(Step(db, e))
  {
    match e
    case Create(caller, f, ids, now) =>
      if caller.Some? && caller.value.role == Parent {
        CreatePreservesInv(db, caller.value.id, f, ids, now);
      }
    case Scan(caller, qrCode, now) => RecordPreservesInv(db, caller, qrCode, now);
    case Approve(caller, id, d) =>
      if caller.Some? && caller.value.role == Warden && Given(id) {
        DecidePreservesInv(db, caller.value, id.value, d);
      }
    case ApproveBackend(w, id, d) => DecidePreservesInv(db, w, id, d);
    case ScanBackend(g, qrCode, kind, location, remarks, now) =>
      BackendScanPreservesInv(db, g, qrCode, kind, location, remarks, now);
  }

  lemma {:induction false} RunPreservesInv(db: Db, trace: seq<Event>)
    requires Inv(db)
    ensures Inv(Run(db, trace))
    decreases |trace|
  {
    if |trace| > 0 {
      StepPreservesInv(db, trace[0]);
      RunPreservesInv(Step(db, trace[0]), trace[1..]);
    }
  }

  /**
   * In every store reachable from the empty one, a scan of an INSIDE pass is
   * refused: the exit branch for INSIDE needs a true approval, and an INSIDE
   * pass has no approval at all.
   */
  lemma InsideNeverExits(trace: seq<Event>, caller: Option<User>, qrCode: string, now: Time, i: nat)
    requires var db := Run(EmptyDb, trace); VisitByQr(db, qrCode) == Some(i) && db.visits[i].status == Inside
    ensures NextScan.Record(Run(EmptyDb, trace), caller, Some(qrCode), now).0.Err?
  {
    var db := Run(EmptyDb, trace);
    RunPreservesInv(EmptyDb, trace);
    assert !HasApproval(db, db.visits[i].id);
    assert !HasTrueApproval(db, db.visits[i].id);
  }

  /** The first request of the trace below: a parent's creation in the empty store. */
  lemma CreateInEmpty(parent: User, f: VisitCreation.VisitForm, ids: VisitCreation.FreshIds, now: Time)
    requires parent.role == Parent && VisitCreation.HasRequired(f)
    ensures var db := Step(EmptyDb, Create(Some(parent), f, ids, now));
            && |db.visits| == 1 && db.scanLogs == [] && db.approvals == []
            && db.visits[0].id == ids.visitId && db.visits[0].qrCode == ids.qrCode
            && db.visits[0].status == Pending && Some(db.visits[0].validUntil) == f.validUntil
  {
    assert VisitCreation.SyncStudent(EmptyDb, f, ids.studentId).Some?;
  }

  /**
   * From the empty store: a parent creates a pass, a warden approves it, a
   * guard scans it. The scan records an EXIT; the store then holds that one
   * log for the pass and no ENTRY.
   */
  lemma ExitWithoutEntryReachable(parent: User, warden: User, guard: User, f: VisitCreation.VisitForm,
                                  ids: VisitCreation.FreshIds, created: Time, scanned: Time)
    requires parent.role == Parent && warden.role == Warden && guard.role == Security
    requires VisitCreation.HasRequired(f) && scanned <= f.validUntil.value
    requires ids.visitId != "" && ids.qrCode != ""
    ensures var db := Run(EmptyDb, [Create(Some(parent), f, ids, created),
                                    Approve(Some(warden), Some(ids.visitId), ExpressVisits.Decision(Some(true), None)),
                                    Scan(Some(guard), Some(ids.qrCode), scanned)]);
            && |db.scanLogs| == 1 && db.scanLogs[0].kind == Exit && db.scanLogs[0].visitRequestId == ids.visitId
            && !HasEntryLog(db, ids.visitId)
            && |db.visits| == 1 && db.visits[0].status == Out
  {
    var e1 := Create(Some(parent), f, ids, created);
    var e2 := Approve(Some(warden), Some(ids.visitId), ExpressVisits.Decision(Some(true), None));
    var e3 := Scan(Some(guard), Some(ids.qrCode), scanned);
    var db1 := Step(EmptyDb, e1);
    CreateInEmpty(parent, f, ids, created);
    assert VisitById(db1, ids.visitId) == Some(0);
    var db2 := Step(db1, e2);
    NextVisits.ApproveOverwrites(db1, warden, ids.visitId, true, None, 0);
    assert db2.visits == [db1.visits[0].(status := Approved)] && db2.scanLogs == [];
    assert VisitByQr(db2, ids.qrCode) == Some(0);
    assert !HasEntryLog(db2, ids.visitId);
    var db3 := Step(db2, e3);
    NextScan.ApprovedExitsWithoutEntry(db2, guard, ids.qrCode, scanned, 0);
    NextScan.RecordSuccessWrites(db2, Some(guard), Some(ids.qrCode), scanned);
    assert Run(EmptyDb, [e1, e2, e3]) == Run(db1, [e2, e3]) by {
      assert [e1, e2, e3][1..] == [e2, e3];
    }
    assert Run(db1, [e2, e3]) == Run(db2, [e3]) by {
      assert [e2, e3][1..] == [e3];
    }
    assert Run(db2, [e3]) == db3 by {
      assert [e3][1..] == [];
    }
  }

  /**
   * OUT is not final once approvals are in play: approving an OUT pass again
   * makes it APPROVED, and the next scan records a second EXIT.
   */
  lemma ApprovalReopensOut(db: Db, warden: User, guard: User, id: Id, qrCode: string, now: Time, i: nat)
    requires warden.role == Warden && guard.role == Security && id != "" && qrCode != ""
    requires VisitById(db, id) == Some(i) && VisitByQr(db, qrCode) == Some(i)
    requires db.visits[i].status == Out && now <= db.visits[i].validUntil
    ensures var db1 := Step(db, Approve(Some(warden), Some(id), ExpressVisits.Decision(Some(true), None)));
            var r := NextScan.Record(db1, Some(guard), Some(qrCode), now);
            && db1.visits[i].status == Approved
            && r.0.Ok? && r.0.value.kind == Exit
            && r.1.scanLogs == db.scanLogs + [r.0.value.log]
  {
    var db1 := Step(db, Approve(Some(warden), Some(id), ExpressVisits.Decision(Some(true), None)));
    NextVisits.ApproveOverwrites(db, warden, id, true, None, i);
    Seqs.FirstIndexCongruent(db.visits, (v: VisitRequest) => v.qrCode == qrCode,
                             db1.visits, (v: VisitRequest) => v.qrCode == qrCode);
    assert VisitByQr(db1, qrCode) == Some(i);
    NextScan.RecordKindByStatus(db1, guard, qrCode, now, i);
  }
}
