/**
 * The lifecycle the Express routers give a pass, composed from their effects
 * on the store: creation by a PARENT, approval by a WARDEN, scans by SECURITY.
 * No Express handler ever writes INSIDE or OUT, and every EXIT log in the
 * table is preceded, among the logs of its pass, by an ENTRY log.
 */
module ExpressLifecycle {
  import opened Wrappers
  import opened Model
  import opened Seqs
  import opened Store
  import VisitCreation
  import ExpressVisits
  import ExpressScan

  /** One request that passed its router's role gate. */
  datatype Event =
    | Create(parent: User, form: VisitCreation.VisitForm, ids: VisitCreation.FreshIds, now: Time)
    | Approve(warden: User, id: Id, d: ExpressVisits.Decision)
    | Scan(guard: User, qrCode: Option<string>, scanType: Option<ScanKind>,
           location: Option<string>, remarks: Option<string>, now: Time)

  function Step(db: Db, e: Event): Db {
    match e
    case Create(p, f, ids, now) => VisitCreation.Create(db, p.id, f, ids, now).1
    case Approve(w, id, d) => ExpressVisits.Approve(db, w, id, d).1
    case Scan(g, qrCode, kind, location, remarks, now) => ExpressScan.Scan(db, g, qrCode, kind, location, remarks, now).1
  }

  function Run(db: Db, trace: seq<Event>): Db
    decreases |trace|
  {
    if |trace| == 0 then db else Run(Step(db, trace[0]), trace[1..])
  }

  /** Every EXIT log comes after some log of its pass, and the last such log is an ENTRY. */
  predicate ExitsFollowEntries(logs: seq<ScanLog>) {
    forall k :: 0 <= k < |logs| && logs[k].kind == Exit ==>
      var before := LatestLogIn(logs[..k], logs[k].visitRequestId);
      before.Some? && before.value.kind == Entry
  }

  /** The statuses the Express routers can write. */
  predicate ExpressStatus(s: Status) {
    s in {Pending, Approved, Rejected, Completed}
  }

  predicate Inv(db: Db) {
    && ExitsFollowEntries(db.scanLogs)
    && (forall j :: 0 <= j < |db.visits| ==> ExpressStatus(db.visits[j].status))
  }

  /** Appending a log keeps the property when an EXIT's pass has an ENTRY as its latest log. */
  lemma AppendKeepsExitsFollowEntries(logs: seq<ScanLog>, x: ScanLog)
    requires ExitsFollowEntries(logs)
    requires x.kind == Exit ==> var last := LatestLogIn(logs, x.visitRequestId); last.Some? && last.value.kind == Entry
    ensures ExitsFollowEntries(logs + [x])
  {
    var logs' := logs + [x];
    forall k | 0 <= k < |logs'| && logs'[k].kind == Exit
      ensures var before := LatestLogIn(logs'[..k], logs'[k].visitRequestId); before.Some? && before.value.kind == Entry
    {
      if k < |logs| {
        assert logs'[..k] == logs[..k];
        assert logs'[k] == logs[k];
      } else {
        assert logs'[..k] == logs;
      }
    }
  }

  lemma StepPreservesInv(db: Db, e: Event)
    requires Inv(db)
    ensures Inv(Step(db, e))
  {
    var db' := Step(db, e);
    match e
    case Create(p, f, ids, now) =>
      var r := VisitCreation.Create(db, p.id, f, ids, now);
      if r.0.Ok? {
        forall j | 0 <= j < |db'.visits| ensures ExpressStatus(db'.visits[j].status) {
          if j < |db.visits| {
            assert db'.visits[j] == db.visits[j];
          }
        }
      }
    case Approve(w, id, d) =>
      var r := ExpressVisits.Approve(db, w, id, d);
      if r.0.Ok? {
        var i := VisitById(db, id).value;
        assert db' == Decide(db, i, w.id, d.status.value, d.remarks);
      }
    case Scan(g, qrCode, kind, location, remarks, now) =>
      var r := ExpressScan.Scan(db, g, qrCode, kind, location, remarks, now);
      if r.0.Ok? {
        var i := VisitByQr(db, qrCode.value).value;
        var v := db.visits[i];
        assert r.0.value.log.visitRequestId == v.id;
        AppendKeepsExitsFollowEntries(db.scanLogs, r.0.value.log);
        forall j | 0 <= j < |db'.visits| ensures ExpressStatus(db'.visits[j].status) {
          if j != i {
            assert db'.visits[j] == db.visits[j];
          }
        }
      }
  }

  lemma {:induction false} RunPreservesInv(db: Db, trace: seq<Event>)
    requires Inv(db)
    ensures Inv(Run(db, trace))
    decreases |trace|
  {
    if |trace| > 0 {
      StepPreservesInv(db, trace[0]);
      RunPreservesInv(Step(db, trace[0]), trace[1..]);
    }
  }

  /**
   * In every store reachable from the empty one: no pass is INSIDE or OUT,
   * and every EXIT log of a pass directly follows an ENTRY log of that pass
   * (no other log of the pass lies between them).
   */
  lemma ReachableExitsFollowEntries(trace: seq<Event>, k: nat)
    requires var db := Run(EmptyDb, trace); k < |db.scanLogs| && db.scanLogs[k].kind == Exit
    ensures var db := Run(EmptyDb, trace); var id := db.scanLogs[k].visitRequestId;
            exists e :: 0 <= e < k && db.scanLogs[e].visitRequestId == id && db.scanLogs[e].kind == Entry
                      && forall m :: e < m < k ==> db.scanLogs[m].visitRequestId != id
    ensures forall j :: 0 <= j < |Run(EmptyDb, trace).visits| ==> Run(EmptyDb, trace).visits[j].status !in {Inside, Out}
  {
    var db := Run(EmptyDb, trace);
    RunPreservesInv(EmptyDb, trace);
    var id := db.scanLogs[k].visitRequestId;
    var logs := db.scanLogs[..k];
    var e := LastIndex(logs, (l: ScanLog) => l.visitRequestId == id).value;
    assert logs[e] == db.scanLogs[e];
    forall m | e < m < k ensures db.scanLogs[m].visitRequestId != id {
      assert logs[m] == db.scanLogs[m];
    }
  }
}
