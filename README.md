# PPMS visit-pass lifecycle in Dafny

PPMS is a hostel visitor-pass system. A parent requests a visit pass for a student. A warden approves or rejects it. Security guards scan its QR token at the gate. This project models how a pass's `status` changes in response to scans, approvals and creation, and proves properties of that model.

The repository implements the lifecycle twice, and the two versions disagree, so the model keeps them apart:

- **Next.js routes** (`NextScan`, `NextVisits`, `NextAuth`, `NextLifecycle`). The scan kind is derived from the status: PENDING gives ENTRY and then INSIDE; INSIDE (with a true approval) or APPROVED gives EXIT and then OUT.
- **Express routers** (`ExpressScan`, `ExpressVisits`, `ExpressAuth`, `ExpressLifecycle`). The guard chooses ENTRY or EXIT. A PENDING pass only collects ENTRY logs. An APPROVED pass alternates ENTRY and EXIT on its latest log, and an EXIT writes COMPLETED. COMPLETED is not one of the five statuses of the shared type (`Model.IsSharedStatus`).

Shared pieces:

- The records, status, role and scan-kind enumerations (`Model`).
- The store (`Store`):
  - `Db` is a snapshot of the four tables (visit requests, students, scan logs, approvals) as sequences in insertion order.
  - `Database` is a class that the handler methods write one row at a time.
- Student creation with its field-by-field update diff, shared by both create handlers (`VisitCreation`).
- The pending-scans selection (`VisitQueries`).
- The student routes (`Students`).
- The roll-number validator and the "unassigned hostel" check (`FeatureChecks`).
- JavaScript's `trim` and `parseInt` (`JsText`).
- Generic sequence queries (`Seqs`).

Each state-changing handler is a method on `Database`. Its `ensures` says that the reply and the new snapshot equal a pure function of the old snapshot. The properties are lemmas about those functions. The two lifecycle modules compose the handlers into `Step` and `Run` over traces of requests, and prove invariants of every store reachable from the empty one.

Conventions of the model:

- Time is integer milliseconds.
- `findUnique` is the first row that matches.
- "Latest log" is the last log appended for the pass, which assumes the clock never goes back.
- The outside world enters as parameters: `jwt.verify` is a function parameter, and `uuid`/`cuid` values are a `FreshIds` parameter.
- A fresh id or QR token that collides with a stored one is the store's unique-key failure: a 500 that writes nothing.

Behaviour of the route code worth noting:

- Creation does not reject `validFrom > validUntil`.
- Neither approve handler checks the current status, so a REJECTED, OUT, INSIDE or COMPLETED pass can be decided again.
- The Next.js engine lets an APPROVED pass EXIT without an ENTRY.
- The Express engine writes COMPLETED, a status the Next.js engine never writes.
- Neither engine checks `validFrom` on an ENTRY of a PENDING pass.

## Model

| member | source | states |
|---|---|---|
| Store.Decide | backend/src/routes/visits.ts:252-274 | an approval appends exactly one approval row (the visit, the warden, the decision, the remarks), overwrites that row's status with APPROVED or REJECTED, and leaves students and scan logs alone |
| NextScan.Record | src/app/api/scan/record/route.ts:21-146 | every refusal leaves the store unchanged; a success replies 200, appends exactly one log, leaves the pass INSIDE or OUT and adds or removes no visit |
| NextScan.RecordScan | src/app/api/scan/record/route.ts:21-146 | the handler, assigning the scan kind across branches, appends the log and updates the status so that the reply and the new store are those of `Record` |
| NextScan.RecordGatesPrecedeLookup | src/app/api/scan/record/route.ts:24-48 | a missing user gets 401, a non-SECURITY role 403 and a missing token 400, in that order, before any lookup and with no write |
| NextScan.RecordUnknownQr | src/app/api/scan/record/route.ts:51-70 | a token no pass carries gets 404 and the store is unchanged |
| NextScan.RecordExpiry | src/app/api/scan/record/route.ts:72-79 | for every status, the scan is refused as expired exactly when `validUntil < now` (`now == validUntil` passes) |
| NextScan.RecordIgnoresValidFrom | src/app/api/scan/record/route.ts:72-79 | changing a pass's `validFrom` changes neither success nor the error nor the kind and log written |
| NextScan.RecordKindByStatus | src/app/api/scan/record/route.ts:81-107 | within the window, PENDING gives ENTRY and INSIDE, and APPROVED gives EXIT and OUT; INSIDE succeeds iff some approval (any, not only the latest) is true, otherwise 400 ApprovalRequired with no write; every other status gets 400 InvalidPassStatus with no write |
| NextScan.RecordSuccessWrites | src/app/api/scan/record/route.ts:110-129 | a success comes from a PENDING, INSIDE or APPROVED pass; the one appended log has the pass id, the scanner's id, the derived kind and `now`; only that pass's status changes |
| NextScan.ApprovedExitsWithoutEntry | src/app/api/scan/record/route.ts:98-100 | an APPROVED pass with no ENTRY log is scanned to OUT with an EXIT log, and still has no ENTRY log |
| NextScan.RecordTerminal | src/app/api/scan/record/route.ts:101-107 | for an OUT or REJECTED pass, every scan by anyone fails and changes nothing |
| ExpressScan.Scan | backend/src/routes/scan.ts:9-186 | every refusal leaves the store unchanged; a success is for a known token on a PENDING or APPROVED pass and appends one log for that pass, stamped now, with the caller-chosen kind and the scanner's id; a PENDING pass's log defaults its location to `Main Gate` and its remarks to `Pending approval scan`; an APPROVED pass's log keeps them as given; no visit is added or removed |
| ExpressScan.ScanQr | backend/src/routes/scan.ts:9-186 | the handler's reply and store writes are those of `Scan` |
| ExpressScan.ScanRefusesMissingAndUnknown | backend/src/routes/scan.ts:13-41 | a missing token or kind is 400 and an unknown token is 404, with nothing written |
| ExpressScan.PendingOnlyLogsEntry | backend/src/routes/scan.ts:44-91 | a PENDING pass refuses EXIT; it accepts ENTRY at any time and however many ENTRY logs it has, appends one log, keeps the status PENDING and reports PENDING_APPROVAL |
| ExpressScan.OtherStatusesRefused | backend/src/routes/scan.ts:93-110 | REJECTED gets PassRejected, and any status other than PENDING or APPROVED gets InvalidPassStatus, whatever the time and kind, with no write |
| ExpressScan.ApprovedScanRule | backend/src/routes/scan.ts:112-129 | an APPROVED pass outside the closed window `[validFrom, validUntil]` is refused; inside it, EXIT succeeds iff the latest log is an ENTRY and ENTRY succeeds iff it is not |
| ExpressScan.ApprovedScanOutcome | backend/src/routes/scan.ts:155-179 | a successful EXIT writes and reports COMPLETED, which is not a shared status; a successful ENTRY keeps APPROVED; both notify the WARDEN and PARENT rooms |
| ExpressScan.VerifyGet | backend/src/routes/scan.ts:189-237 | 404 iff the token is unknown; `isValid` holds iff the pass is APPROVED and `validFrom <= now <= validUntil` |
| ExpressScan.VerifyPost | backend/src/routes/scan.ts:240-297 | 400 iff no token is given; `valid` holds iff the pass exists and `now` is inside its window, whatever its status |
| ExpressScan.VerifyGetImpliesPost | backend/src/routes/scan.ts:222-292 | every pass the GET verification calls valid is valid for the POST verification |
| ExpressScan.VerifyPostIgnoresStatus | backend/src/routes/scan.ts:276-292 | a non-APPROVED pass inside its window is valid for POST but not valid for GET |
| ExpressScan.Logs | backend/src/routes/scan.ts:300-355 | at most 100 rows, each a stored log matching the date day `[d, d + 1 day)`, the kind, and the hostel only for a WARDEN |
| ExpressScan.LogsNewestFirst | backend/src/routes/scan.ts:331-348 | the result is the newest matching rows in reverse insertion order, and holds every matching row when at most 100 match |
| ExpressScan.LogsOrderedByTimestamp | backend/src/routes/scan.ts:346-347 | when logs were appended with a clock that never goes back, the result is ordered by timestamp, newest first |
| ExpressScan.LogsHostelOnlyForWardens | backend/src/routes/scan.ts:322-329 | for a non-WARDEN caller, the hostel parameter does not change the result |
| ExpressAuth.SecondField | backend/src/middleware/auth.ts:16 | `split(' ')[1]` exists iff the header contains a space, and it contains no space |
| ExpressAuth.SecondFieldOfBearer | backend/src/middleware/auth.ts:16 | a `scheme token` header, with or without further fields, yields the token |
| ExpressAuth.Authenticate | backend/src/middleware/auth.ts:14-39 | a user is attached iff next is called; the attached user is a stored user whose id the verified token names; every response is 401 or 403 |
| ExpressAuth.AuthenticateOutcomes | backend/src/middleware/auth.ts:15-38 | no token gives 401; a token that fails verification gives 403; a verified token attaches a user iff one has the decoded id |
| ExpressAuth.RoleGate | backend/src/middleware/auth.ts:41-53 | no user gives 401; a role outside the list gives 403; next is called iff the user's role is listed |
| ExpressAuth.Exchange.Perform | backend/src/middleware/auth.ts:41-53 | a response is sent and next is not called, or next is called once and no response is sent |
| ExpressAuth.AuthenticateToken | backend/src/middleware/auth.ts:14-39 | `req.user` is set only on success; on failure the response is sent and next is not called; on success next is called exactly once |
| ExpressAuth.RequireRole | backend/src/middleware/auth.ts:41-53 | with the decision of `RoleGate`, either a 401/403 response with no call of next, or exactly one call of next and no response |
| ExpressAuth.Guarded | backend/src/middleware/auth.ts:14-53 | the two middlewares in a row admit exactly a stored, verified user whose role is listed, and refuse with 401 or 403 |
| NextAuth.ReplaceFirst | src/lib/auth-middleware.ts:13 | `replace` with a string pattern leaves the text unchanged when the pattern does not occur, and otherwise changes the length by the difference of the two strings |
| NextAuth.StripBearerPrefix | src/lib/auth-middleware.ts:13 | `Bearer <token>` yields the token |
| NextAuth.StripBearerAbsent | src/lib/auth-middleware.ts:13 | a header not containing `Bearer ` is used whole as the token |
| NextAuth.StripBearerNotAnchored | src/lib/auth-middleware.ts:13 | the removal is not anchored: `xBearer t` yields `xt` |
| NextAuth.Authenticate | src/lib/auth-middleware.ts:12-29 | every refusal is 401; the user is admitted iff a non-empty token remains and verifies, and it is the verified user |
| NextAuth.LocalCopyAgrees | src/app/api/scan/record/route.ts:6-19 | the routes' local `authenticate` (null on failure) admits exactly the users the shared helper admits |
| NextAuth.RequireRole | src/lib/auth-middleware.ts:31-40 | null iff the role is allowed, and otherwise a 403 |
| NextAuth.RequireRoleReadsOnlyRole | src/lib/auth-middleware.ts:31-40 | the decision depends only on the role; an empty list refuses everyone |
| VisitCreation.NewStudent | backend/src/routes/visits.ts:46-58 | a new student matches the form, with course and branch defaulted to `Not specified` and year to 1 |
| VisitCreation.BuildUpdate | backend/src/routes/visits.ts:60-69 | the update dictionary built field by field is the diff of the stored student and the form |
| VisitCreation.DiffEmptyIffAgrees | backend/src/routes/visits.ts:60-76 | the diff is empty (no update issued) iff every given field already equals the stored one |
| VisitCreation.ApplyDiff | backend/src/routes/visits.ts:60-76 | applying the diff makes the student agree with every given field, keeps the id and every field not given, and leaves nothing to diff |
| VisitCreation.SyncStudent | backend/src/routes/visits.ts:32-76 | the student used agrees with the form and is in the table, and only the student table changes; with no match on roll number or on name and hostel it is exactly the new student, appended, and it fails only on a taken id; with a match it is that row patched by its diff (fields the form does not give, or gives unchanged, keep their stored values; an agreeing form writes nothing), keeps that row's id and replaces that row alone; a failure is a fresh-id or roll-number collision |
| VisitCreation.SyncKeepsStudentsUnique | backend/src/routes/visits.ts:32-76 | finding, creating or updating the student keeps ids and roll numbers unique |
| VisitCreation.Create | backend/src/routes/visits.ts:11-119 | a missing required field gives 400 with no write; a refused student step gives 500 with no write; otherwise the student table is the student step's, even on the 500 for a taken visit id or token, since the source uses no transaction; a success gives 201, appends one PENDING request with the caller as parent, the fresh id and token, the given window and the synced student's id; no failure adds a request |
| VisitCreation.CreateKeepsStudentsUnique | backend/src/routes/visits.ts:32-119 | visit creation, successful or not, keeps student ids and roll numbers unique |
| VisitCreation.CreateAcceptsReversedWindow | backend/src/routes/visits.ts:78-97 | the created request carries the given `validFrom` and `validUntil` as they are, in either order |
| VisitCreation.CreateVisit | backend/src/routes/visits.ts:11-119 | the handler's student write, visit insert and reply are those of `Create` |
| VisitQueries.LatestEntryIsLatest | src/app/api/visits/pending-scans/route.ts:55-66 | a pass has a latest ENTRY log iff it has an ENTRY log, and no ENTRY log of the pass follows it |
| VisitQueries.PendingScansSelection | src/app/api/visits/pending-scans/route.ts:41-66 | whatever the order, the result holds exactly the stored PENDING requests with an ENTRY log, each carrying its most recent ENTRY log |
| VisitQueries.PendingScansOrdered | src/app/api/visits/pending-scans/route.ts:68-70 | under a total preorder, the result is sorted by it |
| ExpressVisits.CreateVisitRequest | backend/src/routes/visits.ts:11-119 | creation as in `VisitCreation.Create`; the WARDEN room is notified exactly on success |
| ExpressVisits.ListContents | backend/src/routes/visits.ts:122-172 | the listing holds exactly the matching requests, newest first: a PARENT's own, a WARDEN's named hostel, every request for other roles, with the status filter on top |
| ExpressVisits.GetById | backend/src/routes/visits.ts:175-226 | a success is the stored request with that id, owned by the caller when the caller is a PARENT; errors are 403 or 404 |
| ExpressVisits.GetByIdAccess | backend/src/routes/visits.ts:204-211 | for a stored request, access succeeds iff the caller is not a PARENT or owns it |
| ExpressVisits.Approve | backend/src/routes/visits.ts:229-297 | a refusal writes nothing; a success appends the approval row it returns and adds or removes no visit |
| ExpressVisits.ApproveVisit | backend/src/routes/visits.ts:229-297 | the handler's approval insert, status update and reply are those of `Approve` |
| ExpressVisits.ApproveRefusals | backend/src/routes/visits.ts:234-250 | a non-boolean status gives 400 and an unknown id 404, with no write |
| ExpressVisits.ApproveOverwrites | backend/src/routes/visits.ts:252-274 | for any current status, the request becomes APPROVED or REJECTED after one appended approval, and no other request changes |
| ExpressVisits.ApproveAudience | backend/src/routes/visits.ts:283-286 | parents are notified of every decision, and security exactly of approvals |
| ExpressVisits.PendingScansReply | backend/src/routes/visits.ts:300-342 | refused iff the caller is not a WARDEN; otherwise the pending-scans selection ordered by number of logs |
| ExpressVisits.PendingScansReplyContents | backend/src/routes/visits.ts:303-335 | exactly the PENDING requests with an ENTRY log, each with its latest ENTRY log, most logs first |
| ExpressVisits.DispatchGet | backend/src/routes/visits.ts:175-300 | the router answers iff some registered route matches the path segment |
| ExpressVisits.PendingScansShadowed | backend/src/routes/visits.ts:175-300 | as registered, `GET /pending-scans` is served by `GET /:id` and answers 404 |
| ExpressVisits.IntendedOrderServesBoth | backend/src/routes/visits.ts:175-300 | with the literal route first, `/pending-scans` reaches its handler and every other segment is served as before |
| NextVisits.List | src/app/api/visits/route.ts:23-93 | 401 iff no user is authenticated |
| NextVisits.ListContents | src/app/api/visits/route.ts:38-82 | exactly the matching requests, newest first: a PARENT's own, a WARDEN's or HOSTEL_WARDEN's named hostel, with the status filter on top |
| NextVisits.ListingsAgreeExceptHostelWarden | src/app/api/visits/route.ts:41-52 | for every role but HOSTEL_WARDEN, the listing equals the Express listing |
| NextVisits.Create | src/app/api/visits/route.ts:96-217 | 401 without a user and 403 for a non-PARENT, both with no write; otherwise the shared creation with the caller as parent |
| NextVisits.CreateVisitRequest | src/app/api/visits/route.ts:96-217 | the handler's writes and reply are those of `Create` |
| NextVisits.CreateSuccess | src/app/api/visits/route.ts:184-208 | a 201 comes only from a PARENT with every required field, and appends one PENDING request owned by the caller with the fresh token |
| NextVisits.PendingScansReply | src/app/api/visits/pending-scans/route.ts:21-80 | 401 without a user; otherwise a success iff the role is WARDEN (HOSTEL_WARDEN gets 403) |
| NextVisits.PendingScansReplyContents | src/app/api/visits/pending-scans/route.ts:41-70 | exactly the PENDING requests with an ENTRY log, each with its latest ENTRY log, newest created first |
| NextVisits.Approve | backend/src/routes/visits.ts:229-297 | the Next.js approve handler: refusals write nothing; 401 without a user, 403 for a non-WARDEN, 400 without an id, 400 for a non-boolean status, 404 for an unknown id, in that order; otherwise the Express handler's writes, visit and approval, with no room notified |
| NextVisits.ApproveVisit | backend/src/routes/visits.ts:229-297 | the Next.js approve handler's writes and reply are those of `Approve` |
| NextVisits.ApproveOverwrites | backend/src/routes/visits.ts:252-274 | a warden's decision on any stored request appends one approval and overwrites only that request's status |
| NextLifecycle.CreatePreservesInv | src/app/api/visits/route.ts:184-208 | creation keeps visit ids unique, keeps every approval pointing at a stored visit, and adds a PENDING pass with no approval |
| NextLifecycle.RecordPreservesInv | src/app/api/scan/record/route.ts:110-129 | a scan keeps the invariant: ENTRY makes INSIDE only a PENDING pass, which has no approval |
| NextLifecycle.DecidePreservesInv | backend/src/routes/visits.ts:252-274 | a decision keeps the invariant: the approved pass becomes APPROVED or REJECTED, never PENDING or INSIDE |
| NextLifecycle.BackendScanPreservesInv | backend/src/routes/scan.ts:130-161 | an Express scan on the shared store keeps the invariant: it writes no approval and only moves an APPROVED pass to COMPLETED |
| NextLifecycle.StepPreservesInv | src/app/api/scan/record/route.ts:81-129 | each request (creation, either scan engine, either approve handler) keeps the invariant |
| NextLifecycle.RunPreservesInv | src/app/api/scan/record/route.ts:81-129 | every trace of requests keeps the invariant |
| NextLifecycle.InsideNeverExits | src/app/api/scan/record/route.ts:87-97 | in every store reachable from the empty one, a scan of an INSIDE pass fails: the INSIDE exit branch never succeeds |
| NextLifecycle.CreateInEmpty | src/app/api/visits/route.ts:137-208 | a parent's complete form in the empty store yields one PENDING pass with the fresh id and token |
| NextLifecycle.ExitWithoutEntryReachable | src/app/api/scan/record/route.ts:98-100 | create, approve(true), scan from the empty store leaves one EXIT log, no ENTRY log, and the pass OUT |
| NextLifecycle.ApprovalReopensOut | backend/src/routes/visits.ts:263-267 | approving an OUT pass makes it APPROVED, and the next scan records a second EXIT |
| ExpressLifecycle.AppendKeepsExitsFollowEntries | backend/src/routes/scan.ts:122-129 | appending a log keeps "every EXIT directly follows an ENTRY of its pass" when an appended EXIT's latest log is an ENTRY |
| ExpressLifecycle.StepPreservesInv | backend/src/routes/scan.ts:122-161 | creation, approval and scan keep the invariant: EXIT logs follow ENTRY logs, and no status is INSIDE or OUT |
| ExpressLifecycle.RunPreservesInv | backend/src/routes/scan.ts:122-161 | every trace of requests keeps the invariant |
| ExpressLifecycle.ReachableExitsFollowEntries | backend/src/routes/scan.ts:122-129 | in every reachable store, each EXIT log has an earlier ENTRY log of its pass with no log of that pass between, and no pass is INSIDE or OUT |
| Students.Create | backend/src/routes/students.ts:73-111 | a missing field gives 400 with no write; any refusal writes nothing; a success gives 201 and appends exactly the new student, with the fresh id and the form's fields, whose roll number was not taken and whose year is `parseInt(year)` |
| Students.CreateStudent | backend/src/routes/students.ts:73-111 | the handler's insert and reply are those of `Create` |
| Students.CreateKeepsStudentsUnique | backend/src/routes/students.ts:82-105 | creation keeps student ids and roll numbers unique |
| Students.CreateRefusesTakenRoll | backend/src/routes/students.ts:82-89 | a complete form with a taken roll number gets 400 and writes nothing |
| Students.CreateParsesYear | backend/src/routes/students.ts:91-105 | a year sent as a digit string is stored as its decimal value |
| Students.Truncate | backend/src/routes/students.ts:97 | `parseInt` of a number keeps its integer part, rounded toward zero |
| Students.CreateTruncatesYear | backend/src/routes/students.ts:91-105 | a numeric year such as 2.5 is stored without its fractional part |
| Students.CreateRefusesBooleanYear | backend/src/routes/students.ts:78-105 | a boolean year never yields a row: `false` is a missing field, `true` reads as `NaN` |
| Students.Search | backend/src/routes/students.ts:34-70 | 400 iff the query is missing, empty or not a single string; otherwise at most 10 students |
| Students.SearchResults | backend/src/routes/students.ts:42-63 | the result is the first matching students in table order, each containing the query in a searched field, and holds all of them when at most 10 match |
| Students.ListOrderedByName | backend/src/routes/students.ts:8-31 | the list is a permutation of the table, ordered by name ascending |
| JsText.TrimStart | scripts/test-features.ts:89 | the result is a suffix of the input, does not start with white space, and only white space was removed |
| JsText.TrimEnd | scripts/test-features.ts:89 | the result is a prefix of the input, does not end with white space, and only white space was removed |
| JsText.TrimEmptyIffBlank | scripts/test-features.ts:89 | `trim()` gives the empty string iff every character is white space |
| JsText.ParseIntDecimal | backend/src/routes/students.ts:97 | `parseInt` of a digit string followed by a non-digit tail is the decimal value of the digits |
| JsText.ParseIntNaN | backend/src/routes/students.ts:97 | `parseInt` of a string starting with a character that is not a digit, white space or sign is NaN |
| FeatureChecks.RollNumberIffShape | scripts/test-features.ts:14 | the regex accepts exactly 16 characters: `CB.SC.U4` in either case, three letters and five digits |
| FeatureChecks.AcceptedLength | scripts/test-features.ts:14 | every accepted roll number has length 16 |
| FeatureChecks.CaseInsensitive | scripts/test-features.ts:14 | two strings that agree up to letter case are both accepted or both rejected |
| FeatureChecks.WrongCohortRejected | scripts/test-features.ts:25 | a `3` in the cohort position, as in `CB.SC.U3…`, is rejected |
| FeatureChecks.RollNumberTableAccepted | scripts/test-features.ts:16-20 | the four inputs the test table expects to pass are accepted |
| FeatureChecks.RollNumberTableRejected | scripts/test-features.ts:21-25 | the five inputs the test table expects to fail are rejected |
| FeatureChecks.AcceptedLengthContra | scripts/test-features.ts:21-24 | a string whose length is not 16 is rejected |
| FeatureChecks.UnassignedIffBlank | scripts/test-features.ts:88-90 | a visit is unassigned iff it has no student or the student's hostel name is all white space |
| FeatureChecks.UnassignedInNoHostel | scripts/test-features.ts:88-94 | an unassigned visit is in no named hostel's listing |

## Left out

- The React pages and components are not modelled. They are UI; their filters and buttons are display gates, not enforced rules.
- socket.io broadcasts are modelled only as the audience value a handler returns (`Audience`). Delivery is I/O.
- `jwt.verify`/`jwt.sign`, bcrypt, `uuidv4`, `cuid` and QR image generation are oracles: a function parameter, or fresh values in `FreshIds`.
- Prisma is modelled as in-memory tables. `include` shaping of replies (joined parent, student, scanner) is left out except the pending-scans ENTRY log.
- The foreign-key checks the database makes on `parentId` or `studentId` are not modelled.
- The `try`/`catch` 500 paths are not modelled, except a fresh-value collision.
- Concurrency is left out: handlers run one at a time. The source has no transactions between its reads and writes.
- Calendar arithmetic is simplified. `setDate(+1)` is `+ DayMs`, and `new Date(...)` parsing is not modelled (times are already integers).
- Ties in time ordering are left out. "Latest log" is the last log appended, which assumes a clock that never goes back.
- Ties in `createdAt` and in the number of logs keep no particular order (insertion sort).
- The student list orders names by code unit. Database collation is not modelled.
- Students.Search: `findMany` with `take: 10` and no `orderBy` returns rows in the database's order, and whether `contains` ignores case depends on the database. The model takes insertion order and case-sensitive containment on code units.
- The query string of `GET /api/visits` is taken as an already-parsed optional status. A status string outside the enumeration is not modelled.
- The Next.js approve handler, `src/app/api/visits/[id]/approve/route.ts`, is modelled by `NextVisits.Approve`. Its gates are at lines 29-69, its lookup at 71-86 and its writes at 88-110. Its writes repeat the Express handler's, so the table cites the Express lines.
- The students `GET /:id` route (`backend/src/routes/students.ts:114-141`) is not modelled. It is a lookup by id with a 404 and a join of the student's five newest requests, and it writes nothing.
- `src/app/api/scan/logs/route.ts` is not modelled. It answers 401, then 403 for every role but SECURITY, then the 50 newest logs; it writes nothing.
- `src/app/api/scan/verify/[qrCode]/route.ts` is not modelled. Past its 401 it has no role gate. It answers "not valid" for an unknown token or a `validUntil` in the past. Otherwise it picks the next scan kind from the newest log: ENTRY when there is none or the newest is an EXIT, and EXIT after an ENTRY. It answers "valid" for that EXIT only when a true approval exists (lines 85-129). It writes nothing, and neither scan handler consults it, so no property of the store depends on it.
- `GET` in `src/app/api/visits/[id]/route.ts` is not modelled. It answers 401, then 404, then 403 for a PARENT who does not own the pass, and it writes nothing.
- `DELETE` in `src/app/api/visits/[id]/route.ts` (lines 91-164) is not modelled. It answers 401, then 404, then 403 for a PARENT who does not own the pass, then 400 once any scan log of the pass exists. Otherwise it deletes the pass's approvals, its scan logs (none, by the previous check) and the pass. The lifecycle traces of `NextLifecycle` and `ExpressLifecycle` have no delete event. So their invariants are proved for stores that only grow in visits, approvals and logs.
- The test runner loop of `scripts/test-features.ts` is not modelled. Its table is proved case by case instead.
- The server wiring, the axios wrapper, the seed and maintenance scripts, and the constants table are not modelled: they have no lifecycle logic.
- ExpressVisits.PendingScansReply: Prisma's `orderBy: { scanLogs: { _count: 'desc' } }` is modelled as "most logs first" with ties in insertion order.
- NextLifecycle.Step: the Next.js create handler, both approve handlers and both scan engines (the Next.js `record` route and the Express `POST /scan`) share one store in the model. Which backend serves the Next.js pages in deployment is an assumption, so all of them are included.
- ExpressScan.Scan: `scanType` is taken as absent, ENTRY or EXIT. In the source, any other non-empty string gets 400 on a PENDING pass; on an APPROVED pass inside its window it passes both sequence checks and reaches `scanLog.create` with that string. What the database then does is outside the model, and that path is not modelled.
- Students.ParseYear: a number's string form is modelled as its decimal expansion. A number of magnitude at least 1e21, or below 1e-6 and not 0, prints in exponent notation, and `parseInt` then reads only the digits before the `e`; the model truncates instead. A `year` that is an array or an object is not modelled. The other body fields are taken as strings or absent.
- JsText.ParseIntDecimal: `parseInt` results above 2^53 lose precision in JavaScript; the model keeps exact integers.

## Findings

| source | as written | input that shows it | evidently intended | confidence | as-written member | corrected member |
|---|---|---|---|---|---|---|
| backend/src/routes/visits.ts:175 | `router.get('/:id', …)` is registered before `router.get('/pending-scans', …)` at line 300, so Express dispatches `/pending-scans` to the by-id handler | `GET /api/visits/pending-scans` as a WARDEN, with no visit whose id is `pending-scans`: the reply is 404 "Visit request not found" | the literal route is registered first, so a WARDEN gets the pending-scans list and every other path still reaches `/:id` | not executed | ExpressVisits.PendingScansShadowed | ExpressVisits.IntendedOrderServesBoth |
