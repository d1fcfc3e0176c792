/**
 * The Next.js visit routes: `GET` and `POST /api/visits`,
 * `GET /api/visits/pending-scans` and `POST /api/visits/[id]/approve`. Each
 * begins with the route's own `authenticate`; `caller` is what it returned
 * (`NextAuth.AuthenticateOrNull`), None giving 401.
 */
module NextVisits {
  import opened Wrappers
  import opened Model
  import opened Seqs
  import opened Store
  import opened VisitQueries
  import VisitCreation
  import ExpressVisits

  /** The `whereClause` of `GET`: HOSTEL_WARDEN is scoped like WARDEN. */
  predicate Listed(db: Db, caller: User, q: ExpressVisits.ListQuery, v: VisitRequest) {
    && (caller.role == Parent ==> v.parentId == caller.id)
    && (caller.role in {HostelWarden, Warden} && Given(q.hostelName) ==> ExpressVisits.InHostel(db, v, q.hostelName.value))
    && (q.status.Some? ==> v.status == q.status.value)
  }

  /** `GET /api/visits`. */
  function List(db: Db, caller: Option<User>, q: ExpressVisits.ListQuery): (r: Reply<seq<VisitRequest>>)
    ensures r.Err? <==> caller.None?
    ensures r.Err? ==> r == Err(401, Unauthorized)
  {
    if caller.None? then Err(401, Unauthorized)
    else Ok(200, SortBy(Filter(db.visits, (v: VisitRequest) => Listed(db, caller.value, q, v)), NewestFirst))
  }

  /** The listing holds exactly the matching requests, newest first. */
  lemma ListContents(db: Db, caller: User, q: ExpressVisits.ListQuery)
    ensures var r := List(db, Some(caller), q).value;
            && (forall v :: v in r <==> v in db.visits && Listed(db, caller, q, v))
            && (forall i, j :: 0 <= i < j < |r| ==> r[i].createdAt >= r[j].createdAt)
            && (caller.role == Parent ==> forall v :: v in r ==> v.parentId == caller.id)
            && (caller.role in {HostelWarden, Warden} && Given(q.hostelName) ==>
                  forall v :: v in r ==> ExpressVisits.InHostel(db, v, q.hostelName.value))
  {
    SortedSelection(db.visits, (v: VisitRequest) => Listed(db, caller, q, v));
  }

  /** The two routers filter alike for every role except HOSTEL_WARDEN, which only this one scopes. */
  lemma ListingsAgreeExceptHostelWarden(db: Db, caller: User, q: ExpressVisits.ListQuery)
    requires caller.role != HostelWarden
    ensures List(db, Some(caller), q) == Ok(200, ExpressVisits.List(db, caller, q))
  {
    FilterCongruent(db.visits, (v: VisitRequest) => Listed(db, caller, q, v),
                    (v: VisitRequest) => ExpressVisits.Listed(db, caller, q, v));
  }

  /** `POST /api/visits`: 401, then 403 for every role but PARENT, then the shared creation steps. */
  function Create(db: Db, caller: Option<User>, f: VisitCreation.VisitForm, ids: VisitCreation.FreshIds, now: Time)
    : (r: (Reply<VisitRequest>, Db))
    ensures caller.None? ==> r == (Err(401, Unauthorized), db)
    ensures caller.Some? && caller.value.role != Parent ==> r == (Err(403, Forbidden), db)
    ensures caller.Some? && caller.value.role == Parent ==> r == VisitCreation.Create(db, caller.value.id, f, ids, now)
  {
    if caller.None? then (Err(401, Unauthorized), db)
    else if caller.value.role != Parent then (Err(403, Forbidden), db)
    else VisitCreation.Create(db, caller.value.id, f, ids, now)
  }

  /** The handler. */
  method CreateVisitRequest(db: Database, caller: Option<User>, f: VisitCreation.VisitForm, ids: VisitCreation.FreshIds, now: Time)
    returns (reply: Reply<VisitRequest>)
    modifies db
    ensures (reply, db.Snapshot()) == Create(old(db.Snapshot()), caller, f, ids, now)
  {
    if caller.None? {
      return Err(401, Unauthorized);
    }
    if caller.value.role != Parent {
      return Err(403, Forbidden);
    }
    reply := VisitCreation.CreateVisit(db, caller.value.id, f, ids, now);
  }

  /** A created request is the caller's, PENDING, with the fresh token; the reply is 201. */
  lemma CreateSuccess(db: Db, caller: Option<User>, f: VisitCreation.VisitForm, ids: VisitCreation.FreshIds, now: Time)
    requires Create(db, caller, f, ids, now).0.Ok?
    ensures var r := Create(db, caller, f, ids, now);
            && caller.Some? && caller.value.role == Parent && VisitCreation.HasRequired(f)
            && r.0.code == 201
            && r.0.value.parentId == caller.value.id && r.0.value.status == Pending && r.0.value.qrCode == ids.qrCode
            && r.1.visits == db.visits + [r.0.value]
  {
  }

  /** `GET /api/visits/pending-scans`: 401, then 403 for every role but WARDEN (HOSTEL_WARDEN included). */
  function PendingScansReply(db: Db, caller: Option<User>): (r: Reply<seq<PendingScan>>)
    ensures caller.None? ==> r == Err(401, Unauthorized)
    ensures caller.Some? ==> (r.Ok? <==> caller.value.role == Warden)
    ensures caller.Some? && caller.value.role != Warden ==> r == Err(403, Forbidden)
  {
    if caller.None? then Err(401, Unauthorized)
    else if caller.value.role != Warden then Err(403, Forbidden)
    else Ok(200, PendingScans(db, NewestFirst))
  }

  /** The reply holds exactly the PENDING requests with an ENTRY log, each with its latest ENTRY, newest first. */
  lemma PendingScansReplyContents(db: Db, caller: User)
    requires caller.role == Warden
    ensures var r := PendingScansReply(db, Some(caller)).value;
            && (forall k :: 0 <= k < |r| ==>
                  AwaitingApproval(db, r[k].visit) && r[k].latestEntry == LatestEntry(db, r[k].visit.id) && r[k].latestEntry.Some?)
            && (forall v :: v in db.visits && AwaitingApproval(db, v) ==> exists k :: 0 <= k < |r| && r[k].visit == v)
            && (forall i, j :: 0 <= i < j < |r| ==> r[i].visit.createdAt >= r[j].visit.createdAt)
  {
    PendingScansSelection(db, NewestFirst);
    NewestFirstTotal();
    PendingScansOrdered(db, NewestFirst);
  }

  /**
   * `POST /api/visits/[id]/approve`: 401, 403 for every role but WARDEN, 400
   * without an id, 400 for a non-boolean status, 404 for an unknown id; then
   * the same writes and reply as the Express handler, but no room is notified.
   */
  function Approve(db: Db, caller: Option<User>, id: Option<Id>, d: ExpressVisits.Decision): (r: (Reply<ExpressVisits.Decided>, Db))
    ensures r.0.Err? ==> r.1 == db
    ensures r.0.Ok? ==> r.0.code == 200 && r.0.value.notify == Rooms({})
    ensures caller.None? ==> r.0 == Err(401, Unauthorized)
    ensures caller.Some? && caller.value.role != Warden ==> r.0 == Err(403, Forbidden)
    ensures caller.Some? && caller.value.role == Warden && !Given(id) ==> r.0 == Err(400, MissingField)
    ensures caller.Some? && caller.value.role == Warden && Given(id) && d.status.None? ==>
              r == (Err(400, MissingField), db)
    ensures caller.Some? && caller.value.role == Warden && Given(id) && d.status.Some? && VisitById(db, id.value).None? ==>
              r == (Err(404, VisitNotFound), db)
    ensures caller.Some? && caller.value.role == Warden && Given(id) ==>
              var e := ExpressVisits.Approve(db, caller.value, id.value, d);
              && r.1 == e.1
              && (r.0.Err? <==> e.0.Err?)
              && (r.0.Ok? ==> r.0.value.visit == e.0.value.visit && r.0.value.approval == e.0.value.approval)
  {
    if caller.None? then (Err(401, Unauthorized), db)
    else if caller.value.role != Warden then (Err(403, Forbidden), db)
    else if !Given(id) then (Err(400, MissingField), db)
    else
      var e := ExpressVisits.Approve(db, caller.value, id.value, d);
      if e.0.Ok? then (Ok(e.0.code, e.0.value.(notify := Rooms({}))), e.1) else e
  }

  /** The handler: the Express router's two writes, and no notification. */
  method ApproveVisit(db: Database, caller: Option<User>, id: Option<Id>, d: ExpressVisits.Decision)
    returns (reply: Reply<ExpressVisits.Decided>)
    modifies db
    ensures (reply, db.Snapshot()) == Approve(old(db.Snapshot()), caller, id, d)
  {
    if caller.None? {
      return Err(401, Unauthorized);
    }
    if caller.value.role != Warden {
      return Err(403, Forbidden);
    }
    if !Given(id) {
      return Err(400, MissingField);
    }
    var decided := ExpressVisits.ApproveVisit(db, caller.value, id.value, d);
    reply := if decided.Ok? then Ok(decided.code, decided.value.(notify := Rooms({}))) else decided;
  }

  /** A warden's approval of an existing request overwrites any status, exactly as in the Express router. */
  lemma ApproveOverwrites(db: Db, warden: User, id: Id, decision: bool, remarks: Option<string>, i: nat)
    requires warden.role == Warden && id != "" && VisitById(db, id) == Some(i)
    ensures var r := Approve(db, Some(warden), Some(id), ExpressVisits.Decision(Some(decision), remarks));
            && r.0.Ok?
            && r.1.approvals == db.approvals + [Approval(id, warden.id, decision, remarks)]
            && r.1.visits == db.visits[i := db.visits[i].(status := if decision then Approved else Rejected)]
  {
    ExpressVisits.ApproveOverwrites(db, warden, id, decision, remarks, i);
  }
}
