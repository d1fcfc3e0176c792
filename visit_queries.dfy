/**
 * The read queries both visit routers share: the "scanned but still pending"
 * selection with each request's most recent ENTRY log, and the orderings the
 * listings use.
 */
module VisitQueries {
  import opened Wrappers
  import opened Model
  import opened Seqs
  import opened Store

  /** `orderBy: { createdAt: 'desc' }` as a sort key order. */
  const NewestFirst: (VisitRequest, VisitRequest) -> bool := (a: VisitRequest, b: VisitRequest) => a.createdAt >= b.createdAt

  lemma NewestFirstTotal()
    ensures TotalPreorder(NewestFirst)
  {
  }

  /** `status: 'PENDING', scanLogs: { some: { scanType: 'ENTRY' } }`. */
  predicate AwaitingApproval(db: Db, v: VisitRequest) {
    v.status == Pending && HasEntryLog(db, v.id)
  }

  /** A selected request with its `scanLogs` include: the ENTRY logs, newest first, `take: 1`. */
  datatype PendingScan = PendingScan(visit: VisitRequest, latestEntry: Option<ScanLog>)

  function WithLatestEntry(db: Db, vs: seq<VisitRequest>): (r: seq<PendingScan>)
    ensures |r| == |vs|
    ensures forall k :: 0 <= k < |vs| ==> r[k] == PendingScan(vs[k], LatestEntry(db, vs[k].id))
  {
    if |vs| == 0 then [] else [PendingScan(vs[0], LatestEntry(db, vs[0].id))] + WithLatestEntry(db, vs[1..])
  }

  /** The most recent ENTRY log of a request exists exactly when it has one, and no ENTRY of it comes later. */
  lemma LatestEntryIsLatest(db: Db, id: Id)
    ensures LatestEntry(db, id).Some? <==> HasEntryLog(db, id)
    ensures LatestEntry(db, id).Some? ==>
      exists k :: 0 <= k < |db.scanLogs| && db.scanLogs[k] == LatestEntry(db, id).value
        && db.scanLogs[k].visitRequestId == id && db.scanLogs[k].kind == Entry
        && forall j :: k < j < |db.scanLogs| ==> !(db.scanLogs[j].visitRequestId == id && db.scanLogs[j].kind == Entry)
  {
    var p := (l: ScanLog) => l.visitRequestId == id && l.kind == Entry;
    if HasEntryLog(db, id) {
      var l :| l in db.scanLogs && l.visitRequestId == id && l.kind == Entry;
      var k :| 0 <= k < |db.scanLogs| && db.scanLogs[k] == l;
      assert p(db.scanLogs[k]);
    }
  }

  /** The pending-scans reply for a given order of the selected requests. */
  function PendingScans(db: Db, le: (VisitRequest, VisitRequest) -> bool): seq<PendingScan> {
    WithLatestEntry(db, SortBy(Filter(db.visits, (v: VisitRequest) => AwaitingApproval(db, v)), le))
  }

  /**
   * Whatever the order: the reply holds exactly the stored requests that are
   * PENDING with some ENTRY log, each with its most recent ENTRY log.
   */
  lemma PendingScansSelection(db: Db, le: (VisitRequest, VisitRequest) -> bool)
    ensures var r := PendingScans(db, le);
            && (forall k :: 0 <= k < |r| ==>
                  r[k].visit in db.visits && AwaitingApproval(db, r[k].visit)
                  && r[k].latestEntry.Some? && r[k].latestEntry == LatestEntry(db, r[k].visit.id))
            && (forall v :: v in db.visits && AwaitingApproval(db, v) ==> exists k :: 0 <= k < |r| && r[k].visit == v)
  {
    var m := Filter(db.visits, (v: VisitRequest) => AwaitingApproval(db, v));
    var s := SortBy(m, le);
    var r := PendingScans(db, le);
    forall k | 0 <= k < |r|
      ensures r[k].visit in db.visits && AwaitingApproval(db, r[k].visit)
      ensures r[k].latestEntry.Some? && r[k].latestEntry == LatestEntry(db, r[k].visit.id)
    {
      assert r[k].visit == s[k];
      assert s[k] in multiset(s);
      assert s[k] in m;
      LatestEntryIsLatest(db, s[k].id);
    }
    forall v | v in db.visits && AwaitingApproval(db, v)
      ensures exists k :: 0 <= k < |r| && r[k].visit == v
    {
      assert v in m;
      assert v in multiset(m);
      assert v in s;
      var k :| 0 <= k < |s| && s[k] == v;
      assert r[k].visit == v;
    }
  }

  /** Under a total order the reply is ordered by it. */
  lemma PendingScansOrdered(db: Db, le: (VisitRequest, VisitRequest) -> bool)
    requires TotalPreorder(le)
    ensures var r := PendingScans(db, le);
            forall i, j :: 0 <= i < j < |r| ==> le(r[i].visit, r[j].visit)
  {
    SortBySorted(Filter(db.visits, (v: VisitRequest) => AwaitingApproval(db, v)), le);
  }

  /** A listing: the selected requests, newest first. */
  lemma SortedSelection(vs: seq<VisitRequest>, p: VisitRequest -> bool)
    ensures var r := SortBy(Filter(vs, p), NewestFirst);
            && (forall v :: v in r <==> v in vs && p(v))
            && (forall i, j :: 0 <= i < j < |r| ==> r[i].createdAt >= r[j].createdAt)
  {
    var m := Filter(vs, p);
    var r := SortBy(m, NewestFirst);
    forall v ensures v in r <==> v in m {
      assert v in r <==> v in multiset(r);
      assert v in m <==> v in multiset(m);
    }
    NewestFirstTotal();
    SortBySorted(m, NewestFirst);
    assert SortedBy(r, NewestFirst);
  }
}
