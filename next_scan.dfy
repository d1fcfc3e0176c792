/**
 * The Next.js scan engine: `POST /api/scan/record`. The scan kind is not
 * chosen by the caller but derived from the pass's status: PENDING gives
 * ENTRY and then INSIDE; INSIDE (with some true approval) and APPROVED give
 * EXIT and then OUT. The expiry check precedes every status rule.
 */
module NextScan {
  import opened Wrappers
  import opened Model
  import opened Store

  /** A recorded scan: the derived kind, the new log row and the updated visit. */
  datatype Recorded = Recorded(kind: ScanKind, log: ScanLog, visit: VisitRequest)

  /** The outcome of the status dispatch: a scan kind, or the reason for refusing. */
  datatype Detection = Detect(kind: ScanKind) | Refuse(failure: Failure)

  /** The status dispatch: the kind of scan a pass in this state gets. */
  function DetectKind(db: Db, v: VisitRequest): Detection {
    if v.status == Pending then Detect(Entry)
    else if v.status == Inside then
      if HasTrueApproval(db, v.id) then Detect(Exit) else Refuse(ApprovalRequired)
    else if v.status == Approved then Detect(Exit)
    else Refuse(InvalidPassStatus)
  }

  /** The status a recorded scan leaves the pass in. */
  function StatusAfter(kind: ScanKind): Status {
    if kind == Entry then Inside else Out
  }

  /**
   * `POST /api/scan/record`: `caller` is what the route's `authenticate`
   * returned (None when the token is absent or does not verify), `now` the
   * clock. Every refusal leaves the store as it was; a success appends one
   * log row and overwrites the status of the scanned pass.
   */
  function Record(db: Db, caller: Option<User>, qrCode: Option<string>, now: Time): (r: (Reply<Recorded>, Db))
    ensures r.0.Err? ==> r.1 == db
    ensures r.0.Ok? ==> r.0.code == 200 && r.1.scanLogs == db.scanLogs + [r.0.value.log]
    ensures r.0.Ok? ==> r.0.value.visit.status in {Inside, Out}
    ensures r.1.students == db.students && r.1.approvals == db.approvals
    ensures |r.1.visits| == |db.visits|
  {
    if caller.None? then (Err(401, Unauthorized), db)
    else if caller.value.role != Security then (Err(403, Forbidden), db)
    else if !Given(qrCode) then (Err(400, MissingField), db)
    else
      match VisitByQr(db, qrCode.value)
      case None => (Err(404, InvalidQrCode), db)
      case Some(i) =>
        var v := db.visits[i];
        if v.validUntil < now then (Err(400, Expired), db)
        else
          match DetectKind(db, v)
          case Refuse(f) => (Err(400, f), db)
          case Detect(kind) =>
            var log := ScanLog(v.id, caller.value.id, kind, now, None, None);
            var logged := db.(scanLogs := db.scanLogs + [log]);
            (Ok(200, Recorded(kind, log, v.(status := StatusAfter(kind)))), WithStatus(logged, i, StatusAfter(kind)))
  }

  /** The handler: one scan-log insert, then one status update. */
  method RecordScan(db: Database, caller: Option<User>, qrCode: Option<string>, now: Time) returns (reply: Reply<Recorded>)
    modifies db
    ensures (reply, db.Snapshot()) == Record(old(db.Snapshot()), caller, qrCode, now)
  {
    if caller.None? {
      return Err(401, Unauthorized);
    }
    var user := caller.value;
    if user.role != Security {
      return Err(403, Forbidden);
    }
    if !Given(qrCode) {
      return Err(400, MissingField);
    }
    var found := VisitByQr(db.Snapshot(), qrCode.value);
    if found.None? {
      return Err(404, InvalidQrCode);
    }
    var i := found.value;
    var visit := db.visits[i];
    if visit.validUntil < now {
      return Err(400, Expired);
    }
    var scanType: ScanKind;
    if visit.status == Pending {
      scanType := Entry;
    } else if visit.status == Inside {
      scanType := Exit;
      if !HasTrueApproval(db.Snapshot(), visit.id) {
        return Err(400, ApprovalRequired);
      }
    } else if visit.status == Approved {
      scanType := Exit;
    } else {
      return Err(400, InvalidPassStatus);
    }
    var log := ScanLog(visit.id, user.id, scanType, now, None, None);
    db.AppendScanLog(log);
    var newStatus := if scanType == Entry then Inside else Out;
    db.UpdateStatus(i, newStatus);
    reply := Ok(200, Recorded(scanType, log, visit.(status := newStatus)));
  }

  /** The gates before the lookup: 401, then 403 for a non-SECURITY role, then 400; none writes. */
  lemma RecordGatesPrecedeLookup(db: Db, caller: Option<User>, qrCode: Option<string>, now: Time)
    ensures caller.None? ==> Record(db, caller, qrCode, now) == (Err(401, Unauthorized), db)
    ensures caller.Some? && caller.value.role != Security ==>
      Record(db, caller, qrCode, now) == (Err(403, Forbidden), db)
    ensures caller.Some? && caller.value.role == Security && !Given(qrCode) ==>
      Record(db, caller, qrCode, now) == (Err(400, MissingField), db)
  {
  }

  /** An unknown token is a 404 that appends no log and changes no status. */
  lemma RecordUnknownQr(db: Db, guard: User, qrCode: string, now: Time)
    requires guard.role == Security && qrCode != ""
    requires forall j :: 0 <= j < |db.visits| ==> db.visits[j].qrCode != qrCode
    ensures Record(db, Some(guard), Some(qrCode), now) == (Err(404, InvalidQrCode), db)
  {
  }

  /**
   * Expiry comes before the status dispatch and applies to every status:
   * `validUntil < now` refuses, `now == validUntil` does not.
   */
  lemma RecordExpiry(db: Db, guard: User, qrCode: string, now: Time, i: nat)
    requires guard.role == Security && qrCode != ""
    requires VisitByQr(db, qrCode) == Some(i)
    ensures db.visits[i].validUntil < now <==> Record(db, Some(guard), Some(qrCode), now).0 == Err(400, Expired)
  {
  }

  /** The start of the window is never consulted: changing `validFrom` changes no outcome. */
  lemma RecordIgnoresValidFrom(db: Db, caller: Option<User>, qrCode: Option<string>, now: Time, i: nat, t: Time)
    requires i < |db.visits|
    ensures var r := Record(db, caller, qrCode, now);
            var r' := Record(db.(visits := db.visits[i := db.visits[i].(validFrom := t)]), caller, qrCode, now);
            && r'.0.Err? == r.0.Err?
            && (r.0.Err? ==> r'.0 == r.0)
            && (r.0.Ok? ==> r'.0.value.kind == r.0.value.kind && r'.0.value.log == r.0.value.log)
  {
    var db' := db.(visits := db.visits[i := db.visits[i].(validFrom := t)]);
    if caller.Some? && caller.value.role == Security && Given(qrCode) {
      Seqs.FirstIndexCongruent(db.visits, (v: VisitRequest) => v.qrCode == qrCode.value,
                               db'.visits, (v: VisitRequest) => v.qrCode == qrCode.value);
      assert VisitByQr(db', qrCode.value) == VisitByQr(db, qrCode.value);
      if VisitByQr(db, qrCode.value).Some? {
        var j := VisitByQr(db, qrCode.value).value;
        var v, v' := db.visits[j], db'.visits[j];
        assert v'.id == v.id && v'.status == v.status && v'.validUntil == v.validUntil;
        assert DetectKind(db', v') == DetectKind(db, v);
      }
    }
  }

  /**
   * The kind is a function of the status alone: PENDING gives ENTRY, APPROVED
   * gives EXIT, INSIDE gives EXIT exactly when some approval (any, not only the
   * latest) is true; REJECTED, OUT and every other status are refused unchanged.
   */
  lemma RecordKindByStatus(db: Db, guard: User, qrCode: string, now: Time, i: nat)
    requires guard.role == Security && qrCode != ""
    requires VisitByQr(db, qrCode) == Some(i) && now <= db.visits[i].validUntil
    ensures var v := db.visits[i]; var r := Record(db, Some(guard), Some(qrCode), now);
            && (v.status == Pending ==> r.0.Ok? && r.0.value.kind == Entry && r.0.value.visit.status == Inside)
            && (v.status == Approved ==> r.0.Ok? && r.0.value.kind == Exit && r.0.value.visit.status == Out)
            && (v.status == Inside ==> (r.0.Ok? <==> HasTrueApproval(db, v.id)))
            && (v.status == Inside && r.0.Ok? ==> r.0.value.kind == Exit && r.0.value.visit.status == Out)
            && (v.status == Inside && !HasTrueApproval(db, v.id) ==> r == (Err(400, ApprovalRequired), db))
            && (v.status !in {Pending, Approved, Inside} ==> r == (Err(400, InvalidPassStatus), db))
  {
  }

  /**
   * A success appends exactly one log row (scanner, derived kind, `now`) for
   * the scanned pass and sets that pass, and no other, to INSIDE or OUT.
   */
  lemma RecordSuccessWrites(db: Db, caller: Option<User>, qrCode: Option<string>, now: Time)
    requires Record(db, caller, qrCode, now).0.Ok?
    ensures var r := Record(db, caller, qrCode, now); var rec := r.0.value;
            && caller.Some? && Given(qrCode) && VisitByQr(db, qrCode.value).Some?
            && var i := VisitByQr(db, qrCode.value).value;
            && db.visits[i].status in {Pending, Inside, Approved}
            && rec.log == ScanLog(db.visits[i].id, caller.value.id, rec.kind, now, None, None)
            && rec.visit == db.visits[i].(status := if rec.kind == Entry then Inside else Out)
            && r.1.scanLogs == db.scanLogs + [rec.log]
            && r.1.visits == db.visits[i := rec.visit]
  {
  }

  /**
   * An APPROVED pass leaves with an EXIT log whatever its history: with no
   * ENTRY log before, the store then holds an EXIT for it and still no ENTRY.
   */
  lemma ApprovedExitsWithoutEntry(db: Db, guard: User, qrCode: string, now: Time, i: nat)
    requires guard.role == Security && qrCode != ""
    requires VisitByQr(db, qrCode) == Some(i) && now <= db.visits[i].validUntil
    requires db.visits[i].status == Approved && !HasEntryLog(db, db.visits[i].id)
    ensures var r := Record(db, Some(guard), Some(qrCode), now);
            && r.0.Ok? && r.0.value.kind == Exit
            && r.1.visits[i].status == Out
            && !HasEntryLog(r.1, db.visits[i].id)
            && (exists l :: l in r.1.scanLogs && l.visitRequestId == db.visits[i].id && l.kind == Exit)
  {
    var r := Record(db, Some(guard), Some(qrCode), now);
    assert r.1.scanLogs[|db.scanLogs|] == r.0.value.log;
  }

  /** OUT and REJECTED are terminal for this operation: every scan is refused and nothing changes. */
  lemma RecordTerminal(db: Db, caller: Option<User>, qrCode: string, now: Time, i: nat)
    requires VisitByQr(db, qrCode) == Some(i) && db.visits[i].status in {Out, Rejected}
    ensures Record(db, caller, Some(qrCode), now).0.Err?
    ensures Record(db, caller, Some(qrCode), now).1 == db
  {
  }
}
