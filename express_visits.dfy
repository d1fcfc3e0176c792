/**
 * The Express visit router (`/api/visits`): create (PARENT), the role-scoped
 * listing, lookup by id, approve / reject (WARDEN) and the pending-scans
 * query (WARDEN). The handlers run after the router's middleware, so they get
 * the authenticated user; each role gate is `ExpressAuth.RoleGate`.
 */
module ExpressVisits {
  import opened Wrappers
  import opened Model
  import opened Seqs
  import opened Store
  import opened VisitQueries
  import VisitCreation
  import ExpressAuth

  /** `POST /`: the shared creation steps, then the notification of the WARDEN room on success. */
  method CreateVisitRequest(db: Database, parent: User, f: VisitCreation.VisitForm, ids: VisitCreation.FreshIds, now: Time)
    returns (reply: Reply<VisitRequest>, notify: Option<Audience>)
    modifies db
    ensures (reply, db.Snapshot()) == VisitCreation.Create(old(db.Snapshot()), parent.id, f, ids, now)
    ensures notify == if reply.Ok? then Some(Rooms({Warden})) else None
  {
    reply := VisitCreation.CreateVisit(db, parent.id, f, ids, now);
    notify := if reply.Ok? then Some(Rooms({Warden})) else None;
  }

  /** The query of `GET /`. */
  datatype ListQuery = ListQuery(status: Option<Status>, hostelName: Option<string>)

  /** The student of the request lives in the named hostel. */
  predicate InHostel(db: Db, v: VisitRequest, hostel: string) {
    var s := StudentOf(db, v);
    s.Some? && s.value.hostelName == hostel
  }

  /** The `whereClause` of `GET /`: a PARENT sees its own requests; a WARDEN naming a hostel sees that hostel's. */
  predicate Listed(db: Db, caller: User, q: ListQuery, v: VisitRequest) {
    && (caller.role == Parent ==> v.parentId == caller.id)
    && (caller.role == Warden && Given(q.hostelName) ==> InHostel(db, v, q.hostelName.value))
    && (q.status.Some? ==> v.status == q.status.value)
  }

  /** `GET /`: the matching requests, newest first. */
  function List(db: Db, caller: User, q: ListQuery): seq<VisitRequest> {
    SortBy(Filter(db.visits, (v: VisitRequest) => Listed(db, caller, q, v)), NewestFirst)
  }

  /**
   * The listing holds exactly the matching requests, newest first: a parent's
   * own, a warden's hostel when one is named, everything for other roles; the
   * status filter on top.
   */
  lemma ListContents(db: Db, caller: User, q: ListQuery)
    ensures var r := List(db, caller, q);
            && (forall v :: v in r <==> v in db.visits && Listed(db, caller, q, v))
            && (forall i, j :: 0 <= i < j < |r| ==> r[i].createdAt >= r[j].createdAt)
            && (caller.role == Parent ==> forall v :: v in r ==> v.parentId == caller.id)
            && (caller.role !in {Parent, Warden} && q.status.None? ==> forall v :: v in r <==> v in db.visits)
  {
    SortedSelection(db.visits, (v: VisitRequest) => Listed(db, caller, q, v));
  }

  /** `GET /:id`: 404 for an unknown id, 403 for a parent who does not own the request. */
  function GetById(db: Db, caller: User, id: Id): (r: Reply<VisitRequest>)
    ensures r.Ok? ==> r.code == 200 && r.value in db.visits && r.value.id == id
    ensures r.Ok? && caller.role == Parent ==> r.value.parentId == caller.id
    ensures r.Err? ==> r.code in {403, 404}
  {
    match VisitById(db, id)
    case None => Err(404, VisitNotFound)
    case Some(i) =>
      var v := db.visits[i];
      if caller.role == Parent && v.parentId != caller.id then Err(403, Forbidden) else Ok(200, v)
  }

  /** Any role but PARENT reads every existing request by id; a parent reads exactly its own. */
  lemma GetByIdAccess(db: Db, caller: User, id: Id, i: nat)
    requires VisitById(db, id) == Some(i)
    ensures GetById(db, caller, id).Ok? <==> caller.role != Parent || db.visits[i].parentId == caller.id
  {
  }

  /** The body of `POST /:id/approve`; `status` is None when it is not a boolean. */
  datatype Decision = Decision(status: Option<bool>, remarks: Option<string>)

  /** The reply of an approval: the updated request, the new approval row and who is told. */
  datatype Decided = Decided(visit: VisitRequest, approval: Approval, notify: Audience)

  /** Parents hear of every decision, security only of approvals. */
  function DecisionAudience(approved: bool): Audience {
    Rooms({Parent} + if approved then {Security} else {})
  }

  /** `POST /:id/approve`, after the WARDEN gate. */
  function Approve(db: Db, warden: User, id: Id, d: Decision): (r: (Reply<Decided>, Db))
    ensures r.0.Err? ==> r.1 == db
    ensures r.0.Ok? ==> r.0.code == 200 && |r.1.visits| == |db.visits|
    ensures r.0.Ok? ==> r.1.approvals == db.approvals + [r.0.value.approval]
    ensures r.1.students == db.students && r.1.scanLogs == db.scanLogs
  {
    if d.status.None? then (Err(400, MissingField), db)
    else
      match VisitById(db, id)
      case None => (Err(404, VisitNotFound), db)
      case Some(i) =>
        var decision := d.status.value;
        var db' := Decide(db, i, warden.id, decision, d.remarks);
        (Ok(200, Decided(db'.visits[i], Approval(id, warden.id, decision, d.remarks), DecisionAudience(decision))), db')
  }

  /** The handler: one approval insert, then one status update. */
  method ApproveVisit(db: Database, warden: User, id: Id, d: Decision) returns (reply: Reply<Decided>)
    modifies db
    ensures (reply, db.Snapshot()) == Approve(old(db.Snapshot()), warden, id, d)
  {
    if d.status.None? {
      return Err(400, MissingField);
    }
    var found := VisitById(db.Snapshot(), id);
    if found.None? {
      return Err(404, VisitNotFound);
    }
    var i := found.value;
    var status := d.status.value;
    var approval := Approval(id, warden.id, status, d.remarks);
    db.AppendApproval(approval);
    db.UpdateStatus(i, if status then Approved else Rejected);
    reply := Ok(200, Decided(db.visits[i], approval, DecisionAudience(status)));
  }

  /** A non-boolean status is 400 before the lookup, an unknown id 404; neither writes. */
  lemma ApproveRefusals(db: Db, warden: User, id: Id, d: Decision)
    ensures d.status.None? ==> Approve(db, warden, id, d) == (Err(400, MissingField), db)
    ensures d.status.Some? && VisitById(db, id).None? ==> Approve(db, warden, id, d) == (Err(404, VisitNotFound), db)
  {
  }

  /**
   * Whatever the current status (INSIDE, OUT, COMPLETED, REJECTED alike), an
   * approval of an existing request appends one approval row and overwrites
   * the status with APPROVED or REJECTED; no other request changes.
   */
  lemma ApproveOverwrites(db: Db, warden: User, id: Id, decision: bool, remarks: Option<string>, i: nat)
    requires VisitById(db, id) == Some(i)
    ensures var r := Approve(db, warden, id, Decision(Some(decision), remarks));
            && r.0.Ok?
            && r.1.approvals == db.approvals + [Approval(id, warden.id, decision, remarks)]
            && r.1.visits[i] == db.visits[i].(status := if decision then Approved else Rejected)
            && r.0.value.visit == r.1.visits[i]
            && (forall j :: 0 <= j < |db.visits| && j != i ==> r.1.visits[j] == db.visits[j])
  {
  }

  /** The parent room is told of every decision, the security room exactly of approvals. */
  lemma ApproveAudience(db: Db, warden: User, id: Id, d: Decision)
    requires Approve(db, warden, id, d).0.Ok?
    ensures var n := Approve(db, warden, id, d).0.value.notify;
            && n.Rooms? && Parent in n.roles
            && (Security in n.roles <==> d.status == Some(true))
            && n.roles <= {Parent, Security}
  {
  }

  /** `orderBy: { scanLogs: { _count: 'desc' } }`: requests with more logs (of any kind) first. */
  function MostScannedFirst(db: Db): (VisitRequest, VisitRequest) -> bool {
    (a: VisitRequest, b: VisitRequest) => |LogsOf(db, a.id)| >= |LogsOf(db, b.id)|
  }

  /** The handler of `/pending-scans` after `authenticateToken`. */
  function PendingScansReply(db: Db, caller: User): (r: Reply<seq<PendingScan>>)
    ensures r.Err? <==> caller.role != Warden
    ensures r.Ok? ==> r.value == PendingScans(db, MostScannedFirst(db))
  {
    match ExpressAuth.RoleGate([Warden], Some(caller))
    case Respond(code, f) => Err(code, f)
    case CallNext => Ok(200, PendingScans(db, MostScannedFirst(db)))
  }

  /** The reply lists the PENDING requests with an ENTRY log, each with its latest ENTRY, most-scanned first. */
  lemma PendingScansReplyContents(db: Db, caller: User)
    requires caller.role == Warden
    ensures var r := PendingScansReply(db, caller).value;
            && (forall k :: 0 <= k < |r| ==>
                  AwaitingApproval(db, r[k].visit) && r[k].latestEntry == LatestEntry(db, r[k].visit.id) && r[k].latestEntry.Some?)
            && (forall v :: v in db.visits && AwaitingApproval(db, v) ==> exists k :: 0 <= k < |r| && r[k].visit == v)
            && (forall i, j :: 0 <= i < j < |r| ==> |LogsOf(db, r[i].visit.id)| >= |LogsOf(db, r[j].visit.id)|)
  {
    var le := MostScannedFirst(db);
    assert PendingScansReply(db, caller).value == PendingScans(db, le);
    PendingScansSelection(db, le);
    PendingScansOrdered(db, le);
  }

  /** The one-segment GET paths of the router, in registration order, and what they run. */
  datatype Pattern = Param | Literal(text: string)
  datatype Handler = ById | AwaitingScans
  datatype Route = Route(pattern: Pattern, handler: Handler)

  predicate PatternMatches(p: Pattern, segment: string) {
    p.Param? || p.text == segment
  }

  /** `router.get('/:id', …)` is registered before `router.get('/pending-scans', …)`. */
  const RegisteredGets: seq<Route> := [Route(Param, ById), Route(Literal("pending-scans"), AwaitingScans)]

  /** The order that lets the literal path reach its handler. */
  const IntendedGets: seq<Route> := [Route(Literal("pending-scans"), AwaitingScans), Route(Param, ById)]

  /** The reply of either handler. */
  datatype GetReply = OneVisit(visit: Reply<VisitRequest>) | Scanned(scans: Reply<seq<PendingScan>>)

  /** Express runs the first registered route whose pattern matches the segment. */
  function DispatchGet(routes: seq<Route>, db: Db, caller: User, segment: string): (r: Option<GetReply>)
    ensures r.None? <==> forall k :: 0 <= k < |routes| ==> !PatternMatches(routes[k].pattern, segment)
  {
    match FirstIndex(routes, (rt: Route) => PatternMatches(rt.pattern, segment))
    case None => None
    case Some(k) =>
      if routes[k].handler == ById then Some(OneVisit(GetById(db, caller, segment)))
      else Some(Scanned(PendingScansReply(db, caller)))
  }

  /**
   * As registered, `GET /pending-scans` is served by the lookup by id: with no
   * request whose id is that word, every caller, of any role, gets 404.
   */
  lemma PendingScansShadowed(db: Db, caller: User)
    requires VisitById(db, "pending-scans").None?
    ensures DispatchGet(RegisteredGets, db, caller, "pending-scans") == Some(OneVisit(Err(404, VisitNotFound)))
  {
    assert PatternMatches(RegisteredGets[0].pattern, "pending-scans");
  }

  /**
   * With the literal path first, `GET /pending-scans` reaches the WARDEN-only
   * query, and every other segment is still served by the lookup by id.
   */
  lemma IntendedOrderServesBoth(db: Db, caller: User, segment: string)
    ensures DispatchGet(IntendedGets, db, caller, "pending-scans") == Some(Scanned(PendingScansReply(db, caller)))
    ensures segment != "pending-scans" ==>
      DispatchGet(IntendedGets, db, caller, segment) == Some(OneVisit(GetById(db, caller, segment)))
      && DispatchGet(IntendedGets, db, caller, segment) == DispatchGet(RegisteredGets, db, caller, segment)
  {
    assert PatternMatches(IntendedGets[0].pattern, "pending-scans");
    if segment != "pending-scans" {
      assert !PatternMatches(IntendedGets[0].pattern, segment);
      assert PatternMatches(IntendedGets[1].pattern, segment);
      assert PatternMatches(RegisteredGets[0].pattern, segment);
    }
  }
}
