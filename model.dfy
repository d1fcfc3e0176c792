/** Optional values: the `undefined`/`null` of request bodies and of nullable columns. */
module Wrappers {
  datatype Option<+T> = None | Some(value: T)
}

/**
 * The records of the visitor-pass system: users, students, visit requests,
 * scan logs and approvals, with their enumerations, as the shared type
 * declarations of the web application describe them; plus the HTTP replies
 * the route handlers send.
 */
module Model {
  import opened Wrappers

  /** Identifiers and opaque credentials (database ids, uuid QR tokens). */
  type Id = string

  /** Instants, as integer milliseconds since the epoch. */
  type Time = int

  /** One day in milliseconds (the scan-log date filter adds one calendar day). */
  const DayMs: int := 86_400_000

  /**
   * User roles. The shared type lists PARENT, SECURITY and WARDEN; the
   * constant table and the visit listing also know HOSTEL_WARDEN; a role
   * column may hold any other string as well.
   */
  datatype Role = Parent | Security | Warden | HostelWarden | OtherRole(name: string)

  /**
   * Visit statuses. The first five are the shared type's; `Completed` is the
   * value the Express scan engine writes on exit, which the shared type does
   * not list.
   */
  datatype Status = Pending | Approved | Rejected | Inside | Out | Completed

  /** The five statuses of the shared `VisitRequest` type. */
  predicate IsSharedStatus(s: Status) {
    s != Completed
  }

  datatype ScanKind = Entry | Exit

  datatype User = User(id: Id, role: Role, name: string)

  datatype Student = Student(
    id: Id,
    name: string,
    rollNumber: string,
    course: string,
    branch: string,
    year: int,
    hostelName: string,
    roomNumber: Option<string>)

  /** A visit request ("pass"): one QR token and one validity window. */
  datatype VisitRequest = VisitRequest(
    id: Id,
    parentId: Id,
    studentId: Id,
    status: Status,
    qrCode: string,
    validFrom: Time,
    validUntil: Time,
    createdAt: Time,
    vehicleNo: Option<string>,
    purpose: Option<string>)

  /** A scan log row: exactly one visit request and one scanner. */
  datatype ScanLog = ScanLog(
    visitRequestId: Id,
    scannedBy: Id,
    kind: ScanKind,
    timestamp: Time,
    location: Option<string>,
    remarks: Option<string>)

  /** An approval row: one boolean decision by one warden on one visit request. */
  datatype Approval = Approval(
    visitRequestId: Id,
    wardenId: Id,
    decision: bool,
    remarks: Option<string>)

  /** The failure reasons the handlers report, one per distinct error message. */
  datatype Failure =
    | Unauthorized          // 401: no authenticated user
    | MissingToken          // 401: no bearer token in the header
    | InvalidToken          // the token does not verify (401 or 403)
    | UnknownUser           // 403: the token names no user
    | Forbidden             // 403: wrong role, or not the owner
    | MissingField          // 400: a required body or query field is absent
    | VisitNotFound         // 404: unknown visit id
    | InvalidQrCode         // 404: unknown QR token
    | Expired               // 400: validUntil is in the past
    | ApprovalRequired      // 400: exit from INSIDE without a true approval
    | InvalidPassStatus     // 400: the status admits no scan
    | EntryOnlyWhilePending // 400: EXIT requested on a PENDING pass
    | PassRejected          // 400: scan of a REJECTED pass
    | OutsideWindow         // 400: now is not within [validFrom, validUntil]
    | ExitWithoutEntry      // 400: EXIT whose latest log is not an ENTRY
    | AlreadyEntered        // 400: ENTRY whose latest log is an ENTRY
    | DuplicateRollNumber   // 400: a student with this roll number exists
    | StoreFailure          // 500: the store refused the write

  /** Who a real-time notification is sent to. */
  datatype Audience = Everyone | Rooms(roles: set<Role>)

  /** An HTTP reply: a success code with a payload, or an error code with a reason. */
  datatype Reply<+T> = Ok(code: int, value: T) | Err(code: int, failure: Failure)

  /** The outcome of an authentication step: the user a handler runs with, or the refusal sent instead. */
  datatype Admission = Admitted(user: User) | Refused(code: int, failure: Failure)

  /** JavaScript truthiness of an optional string field: present and non-empty. */
  predicate Given(s: Option<string>) {
    s.Some? && s.value != ""
  }

  /** `value || fallback` for an optional string field. */
  function OrElse(s: Option<string>, fallback: string): string {
    if Given(s) then s.value else fallback
  }
}
