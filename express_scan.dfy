/**
 * The Express scan engine (`/scan` router): the caller chooses ENTRY or EXIT.
 * A PENDING pass only collects ENTRY logs; an APPROVED pass must be within
 * its window and alternate ENTRY/EXIT on its latest log, and an EXIT sets the
 * status COMPLETED. Also the two verification predicates and the scan-log
 * query of the security dashboard.
 */
module ExpressScan {
  import opened Wrappers
  import opened Model
  import opened Seqs
  import opened Store

  /** The status the reply reports: the literal PENDING_APPROVAL, or a visit status. */
  datatype Reported = PendingApproval | Reported(status: Status)

  /** A scan that was recorded, with the notification audience. */
  datatype ScanAck = ScanAck(log: ScanLog, reported: Reported, audience: Audience)

  /**
   * `POST /scan`, from the point where the SECURITY gate called next: `caller`
   * is `req.user`. Every refusal writes nothing.
   */
  function Scan(db: Db, caller: User, qrCode: Option<string>, scanType: Option<ScanKind>,
                location: Option<string>, remarks: Option<string>, now: Time): (r: (Reply<ScanAck>, Db))
    ensures r.0.Err? ==> r.1 == db
    ensures r.0.Ok? ==> r.0.code == 200 && r.1.scanLogs == db.scanLogs + [r.0.value.log]
    ensures r.0.Ok? ==> scanType.Some? && r.0.value.log.kind == scanType.value && r.0.value.log.scannedBy == caller.id
    ensures r.1.students == db.students && r.1.approvals == db.approvals
    ensures |r.1.visits| == |db.visits|
    ensures r.0.Ok? ==> Given(qrCode) && VisitByQr(db, qrCode.value).Some?
    ensures r.0.Ok? ==>
              var v := db.visits[VisitByQr(db, qrCode.value).value];
              && r.0.value.log.visitRequestId == v.id && r.0.value.log.timestamp == now
              && v.status in {Pending, Approved}
              && (v.status == Pending ==>
                    && r.0.value.log.location == Some(OrElse(location, "Main Gate"))
                    && r.0.value.log.remarks == Some(OrElse(remarks, "Pending approval scan")))
              && (v.status == Approved ==> r.0.value.log.location == location && r.0.value.log.remarks == remarks)
  {
    if !Given(qrCode) || scanType.None? then (Err(400, MissingField), db)
    else
      match VisitByQr(db, qrCode.value)
      case None => (Err(404, InvalidQrCode), db)
      case Some(i) =>
        var v := db.visits[i];
        var kind := scanType.value;
        if v.status == Pending then
          if kind != Entry then (Err(400, EntryOnlyWhilePending), db)
          else
            var log := ScanLog(v.id, caller.id, kind, now,
                               Some(OrElse(location, "Main Gate")), Some(OrElse(remarks, "Pending approval scan")));
            (Ok(200, ScanAck(log, PendingApproval, Everyone)), db.(scanLogs := db.scanLogs + [log]))
        else if v.status == Rejected then (Err(400, PassRejected), db)
        else if v.status != Approved then (Err(400, InvalidPassStatus), db)
        else if now < v.validFrom || now > v.validUntil then (Err(400, OutsideWindow), db)
        else
          var last := LatestLog(db, v.id);
          if kind == Exit && (last.None? || last.value.kind != Entry) then (Err(400, ExitWithoutEntry), db)
          else if kind == Entry && last.Some? && last.value.kind == Entry then (Err(400, AlreadyEntered), db)
          else
            var log := ScanLog(v.id, caller.id, kind, now, location, remarks);
            var logged := db.(scanLogs := db.scanLogs + [log]);
            var ack := ScanAck(log, Reported(if kind == Exit then Completed else v.status), Rooms({Warden, Parent}));
            (Ok(200, ack), if kind == Exit then WithStatus(logged, i, Completed) else logged)
  }

  /** The handler: one scan-log insert, and a status update on EXIT. */
  method ScanQr(db: Database, caller: User, qrCode: Option<string>, scanType: Option<ScanKind>,
                location: Option<string>, remarks: Option<string>, now: Time) returns (reply: Reply<ScanAck>)
    modifies db
    ensures (reply, db.Snapshot()) == Scan(old(db.Snapshot()), caller, qrCode, scanType, location, remarks, now)
  {
    if !Given(qrCode) || scanType.None? {
      return Err(400, MissingField);
    }
    var found := VisitByQr(db.Snapshot(), qrCode.value);
    if found.None? {
      return Err(404, InvalidQrCode);
    }
    var i := found.value;
    var visit := db.visits[i];
    var kind := scanType.value;
    if visit.status == Pending {
      if kind != Entry {
        return Err(400, EntryOnlyWhilePending);
      }
      var log := ScanLog(visit.id, caller.id, kind, now,
                         Some(OrElse(location, "Main Gate")), Some(OrElse(remarks, "Pending approval scan")));
      db.AppendScanLog(log);
      return Ok(200, ScanAck(log, PendingApproval, Everyone));
    }
    if visit.status == Rejected {
      return Err(400, PassRejected);
    }
    if visit.status != Approved {
      return Err(400, InvalidPassStatus);
    }
    if now < visit.validFrom || now > visit.validUntil {
      return Err(400, OutsideWindow);
    }
    var lastScan := LatestLog(db.Snapshot(), visit.id);
    if kind == Exit && (lastScan.None? || lastScan.value.kind != Entry) {
      return Err(400, ExitWithoutEntry);
    }
    if kind == Entry && lastScan.Some? && lastScan.value.kind == Entry {
      return Err(400, AlreadyEntered);
    }
    var log := ScanLog(visit.id, caller.id, kind, now, location, remarks);
    db.AppendScanLog(log);
    if kind == Exit {
      db.UpdateStatus(i, Completed);
    }
    reply := Ok(200, ScanAck(log, Reported(if kind == Exit then Completed else visit.status), Rooms({Warden, Parent})));
  }

  /** A missing token or kind is a 400 and an unknown token a 404; neither writes. */
  lemma ScanRefusesMissingAndUnknown(db: Db, caller: User, qrCode: Option<string>, scanType: Option<ScanKind>,
                                     location: Option<string>, remarks: Option<string>, now: Time)
    ensures !Given(qrCode) || scanType.None? ==>
      Scan(db, caller, qrCode, scanType, location, remarks, now) == (Err(400, MissingField), db)
    ensures Given(qrCode) && scanType.Some? && VisitByQr(db, qrCode.value).None? ==>
      Scan(db, caller, qrCode, scanType, location, remarks, now) == (Err(404, InvalidQrCode), db)
  {
  }

  /**
   * A PENDING pass takes ENTRY only, whatever the time and however many ENTRY
   * logs it already has; the log is appended and the status stays PENDING.
   */
  lemma PendingOnlyLogsEntry(db: Db, caller: User, qrCode: string, kind: ScanKind,
                             location: Option<string>, remarks: Option<string>, now: Time, i: nat)
    requires qrCode != "" && VisitByQr(db, qrCode) == Some(i) && db.visits[i].status == Pending
    ensures var r := Scan(db, caller, Some(qrCode), Some(kind), location, remarks, now);
            && (kind == Exit ==> r == (Err(400, EntryOnlyWhilePending), db))
            && (kind == Entry ==> r.0.Ok? && r.0.value.reported == PendingApproval)
            && (kind == Entry ==> r.1.visits == db.visits && r.1.scanLogs == db.scanLogs + [r.0.value.log])
  {
  }

  /**
   * Status checks come before the window check: a REJECTED pass, and any
   * status other than PENDING or APPROVED (COMPLETED, INSIDE, OUT), is refused
   * with no write, at any time and for either kind.
   */
  lemma OtherStatusesRefused(db: Db, caller: User, qrCode: string, kind: ScanKind,
                             location: Option<string>, remarks: Option<string>, now: Time, i: nat)
    requires qrCode != "" && VisitByQr(db, qrCode) == Some(i)
    requires db.visits[i].status !in {Pending, Approved}
    ensures var r := Scan(db, caller, Some(qrCode), Some(kind), location, remarks, now);
            && r.1 == db
            && r.0 == Err(400, if db.visits[i].status == Rejected then PassRejected else InvalidPassStatus)
  {
  }

  /**
   * For an APPROVED pass the outcome is decided by the closed window
   * `validFrom <= now <= validUntil`, then by the latest log: EXIT succeeds
   * exactly when the latest log is an ENTRY, ENTRY exactly when it is not.
   */
  lemma ApprovedScanRule(db: Db, caller: User, qrCode: string, kind: ScanKind,
                         location: Option<string>, remarks: Option<string>, now: Time, i: nat)
    requires qrCode != "" && VisitByQr(db, qrCode) == Some(i) && db.visits[i].status == Approved
    ensures var v := db.visits[i];
            var r := Scan(db, caller, Some(qrCode), Some(kind), location, remarks, now);
            var lastIsEntry := LatestLog(db, v.id).Some? && LatestLog(db, v.id).value.kind == Entry;
            && (!(v.validFrom <= now <= v.validUntil) ==> r == (Err(400, OutsideWindow), db))
            && (v.validFrom <= now <= v.validUntil && kind == Exit ==> (r.0.Ok? <==> lastIsEntry))
            && (v.validFrom <= now <= v.validUntil && kind == Entry ==> (r.0.Ok? <==> !lastIsEntry))
  {
  }

  /**
   * A successful EXIT on an APPROVED pass writes COMPLETED, a status outside
   * the shared five, and reports it; a successful ENTRY leaves it APPROVED.
   */
  lemma ApprovedScanOutcome(db: Db, caller: User, qrCode: string, kind: ScanKind,
                            location: Option<string>, remarks: Option<string>, now: Time, i: nat)
    requires qrCode != "" && VisitByQr(db, qrCode) == Some(i) && db.visits[i].status == Approved
    requires Scan(db, caller, Some(qrCode), Some(kind), location, remarks, now).0.Ok?
    ensures var r := Scan(db, caller, Some(qrCode), Some(kind), location, remarks, now);
            && (kind == Exit ==> r.1.visits == db.visits[i := db.visits[i].(status := Completed)])
            && (kind == Exit ==> r.0.value.reported == Reported(Completed) && !IsSharedStatus(r.1.visits[i].status))
            && (kind == Entry ==> r.1.visits == db.visits && r.0.value.reported == Reported(Approved))
            && r.0.value.audience == Rooms({Warden, Parent})
  {
  }

  /** `GET /verify/:qrCode`'s `isValid`: APPROVED and inside the closed window. */
  predicate IsValid(v: VisitRequest, now: Time) {
    v.status == Approved && v.validFrom <= now && now <= v.validUntil
  }

  datatype Verification = Verification(visit: VisitRequest, isValid: bool)

  /** `GET /verify/:qrCode`: 404 for an unknown token, else the pass and `isValid`. */
  function VerifyGet(db: Db, qrCode: string, now: Time): (r: Reply<Verification>)
    ensures r.Err? <==> VisitByQr(db, qrCode).None?
    ensures r.Ok? ==> r.value.visit in db.visits && r.value.visit.qrCode == qrCode
    ensures r.Ok? ==> (r.value.isValid <==> r.value.visit.status == Approved && r.value.visit.validFrom <= now <= r.value.visit.validUntil)
  {
    match VisitByQr(db, qrCode)
    case None => Err(404, InvalidQrCode)
    case Some(i) => Ok(200, Verification(db.visits[i], IsValid(db.visits[i], now)))
  }

  /**
   * `POST /verify`: 400 without a token; otherwise `valid` holds iff the pass
   * exists and `now` is inside its window, whatever its status.
   */
  function VerifyPost(db: Db, qrCode: Option<string>, now: Time): (r: Reply<bool>)
    ensures r.Err? <==> !Given(qrCode)
    ensures r.Ok? ==> (r.value <==> exists v :: v in db.visits && v.qrCode == qrCode.value && v == db.visits[VisitByQr(db, qrCode.value).value] && v.validFrom <= now <= v.validUntil)
  {
    if !Given(qrCode) then Err(400, MissingField)
    else
      match VisitByQr(db, qrCode.value)
      case None => Ok(200, false)
      case Some(i) => Ok(200, db.visits[i].validFrom <= now <= db.visits[i].validUntil)
  }

  /**
   * The two verifications disagree: every pass GET calls valid is valid for
   * POST, but POST also accepts a REJECTED or COMPLETED pass inside its window.
   */
  lemma VerifyGetImpliesPost(db: Db, qrCode: string, now: Time)
    requires qrCode != ""
    requires VerifyGet(db, qrCode, now).Ok? && VerifyGet(db, qrCode, now).value.isValid
    ensures VerifyPost(db, Some(qrCode), now) == Ok(200, true)
  {
  }

  lemma VerifyPostIgnoresStatus(db: Db, qrCode: string, now: Time, i: nat)
    requires qrCode != "" && VisitByQr(db, qrCode) == Some(i)
    requires db.visits[i].validFrom <= now <= db.visits[i].validUntil && db.visits[i].status != Approved
    ensures VerifyPost(db, Some(qrCode), now) == Ok(200, true)
    ensures VerifyGet(db, qrCode, now) == Ok(200, Verification(db.visits[i], false))
  {
  }

  /** `GET /logs` query parameters. */
  datatype LogQuery = LogQuery(date: Option<Time>, scanType: Option<ScanKind>, hostelName: Option<string>)

  /** The hostel of the student a log's visit request is for, if both rows exist. */
  function HostelOfLog(db: Db, l: ScanLog): Option<string> {
    match VisitById(db, l.visitRequestId)
    case None => None
    case Some(i) =>
      match StudentOf(db, db.visits[i])
      case None => None
      case Some(s) => Some(s.hostelName)
  }

  /**
   * The `where` clause: the day `[date, date + 1 day)`, the kind, and the
   * student's hostel only when the caller is a WARDEN and a hostel is given.
   */
  predicate LogMatches(db: Db, caller: User, q: LogQuery, l: ScanLog) {
    && (q.date.Some? ==> q.date.value <= l.timestamp < q.date.value + DayMs)
    && (q.scanType.Some? ==> l.kind == q.scanType.value)
    && (caller.role == Warden && Given(q.hostelName) ==> HostelOfLog(db, l) == q.hostelName)
  }

  /** `GET /logs`: the matching rows, newest first, at most 100. */
  function Logs(db: Db, caller: User, q: LogQuery): (r: seq<ScanLog>)
    ensures |r| <= 100
    ensures forall l :: l in r ==> l in db.scanLogs && LogMatches(db, caller, q, l)
  {
    Take(Reverse(Filter(db.scanLogs, (l: ScanLog) => LogMatches(db, caller, q, l))), 100)
  }

  /**
   * The result is the last (newest) matching rows in reverse insertion order,
   * and every matching row when there are at most 100 of them.
   */
  lemma LogsNewestFirst(db: Db, caller: User, q: LogQuery)
    ensures var m := Filter(db.scanLogs, (l: ScanLog) => LogMatches(db, caller, q, l));
            var r := Logs(db, caller, q);
            && |r| == (if |m| <= 100 then |m| else 100)
            && (forall k :: 0 <= k < |r| ==> r[k] == m[|m| - 1 - k])
            && (|m| <= 100 ==> forall l :: l in db.scanLogs && LogMatches(db, caller, q, l) ==> l in r)
  {
    var m := Filter(db.scanLogs, (l: ScanLog) => LogMatches(db, caller, q, l));
    var r := Logs(db, caller, q);
    if |m| <= 100 {
      forall l | l in db.scanLogs && LogMatches(db, caller, q, l) ensures l in r {
        var k :| 0 <= k < |m| && m[k] == l;
        assert r[|m| - 1 - k] == l;
      }
    }
  }

  /** Rows appended with a clock that never goes back have non-decreasing timestamps. */
  predicate Chronological(logs: seq<ScanLog>) {
    forall i, j :: 0 <= i < j < |logs| ==> logs[i].timestamp <= logs[j].timestamp
  }

  lemma {:induction false} FilterChronological(logs: seq<ScanLog>, p: ScanLog -> bool)
    requires Chronological(logs)
    ensures Chronological(Filter(logs, p))
  {
    if |logs| > 0 {
      FilterChronological(logs[1..], p);
      var rest := Filter(logs[1..], p);
      if p(logs[0]) {
        var r := [logs[0]] + rest;
        forall i, j | 0 <= i < j < |r| ensures r[i].timestamp <= r[j].timestamp {
          if i == 0 {
            assert r[j] in logs[1..];
          }
        }
      }
    }
  }

  /** When the log table is chronological, the result is ordered newest first by timestamp. */
  lemma LogsOrderedByTimestamp(db: Db, caller: User, q: LogQuery)
    requires Chronological(db.scanLogs)
    ensures var r := Logs(db, caller, q);
            forall i, j :: 0 <= i < j < |r| ==> r[i].timestamp >= r[j].timestamp
  {
    var m := Filter(db.scanLogs, (l: ScanLog) => LogMatches(db, caller, q, l));
    FilterChronological(db.scanLogs, (l: ScanLog) => LogMatches(db, caller, q, l));
    LogsNewestFirst(db, caller, q);
  }

  /** The hostel parameter is ignored unless the caller is a WARDEN. */
  lemma LogsHostelOnlyForWardens(db: Db, caller: User, q: LogQuery, hostel: Option<string>)
    requires caller.role != Warden
    ensures Logs(db, caller, q) == Logs(db, caller, q.(hostelName := hostel))
  {
    var p := (l: ScanLog) => LogMatches(db, caller, q, l);
    var q' := q.(hostelName := hostel);
    var p' := (l: ScanLog) => LogMatches(db, caller, q', l);
    Seqs.FilterCongruent(db.scanLogs, p, p');
    assert Logs(db, caller, q) == Take(Reverse(Filter(db.scanLogs, p)), 100);
    assert Logs(db, caller, q') == Take(Reverse(Filter(db.scanLogs, p')), 100);
  }
}
