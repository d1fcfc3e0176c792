/**
 * The Express middleware: `authenticateToken` reads the second space-separated
 * part of the `Authorization` header, verifies it and loads the user it names;
 * `requireRole` admits a user whose role is in a list. Each either sends a
 * response or calls the next handler.
 */
module ExpressAuth {
  import opened Wrappers
  import opened Model
  import opened Seqs

  /** What a middleware does: respond with an error, or pass on to the next handler. */
  datatype Gate = Respond(code: int, failure: Failure) | CallNext

  /** `header.split(' ')[1]`: the text between the first and the second space, if there is a first space. */
  function SecondField(header: string): (r: Option<string>)
    ensures r.Some? ==> ' ' !in r.value
    ensures (' ' !in header) <==> r.None?
  {
    match FirstIndex(header, (c: char) => c == ' ')
    case None => None
    case Some(i) =>
      var rest := header[i + 1..];
      match FirstIndex(rest, (c: char) => c == ' ')
      case None => Some(rest)
      case Some(j) => Some(rest[..j])
  }

  /** A scheme word, one space, a token without spaces and anything after a further space: the token is found. */
  lemma SecondFieldOfBearer(scheme: string, token: string, rest: string)
    requires ' ' !in scheme && ' ' !in token
    ensures SecondField(scheme + " " + token) == Some(token)
    ensures SecondField(scheme + " " + token + " " + rest) == Some(token)
  {
    var h := scheme + " " + token;
    assert h[|scheme|] == ' ';
    assert forall k :: 0 <= k < |scheme| ==> h[k] == scheme[k];
    assert h[|scheme| + 1..] == token;
    var h' := scheme + " " + token + " " + rest;
    assert h'[|scheme|] == ' ';
    assert forall k :: 0 <= k < |scheme| ==> h'[k] == scheme[k];
    var tail := h'[|scheme| + 1..];
    assert tail == token + " " + rest;
    assert tail[|token|] == ' ';
    assert forall k :: 0 <= k < |token| ==> tail[k] == token[k];
    assert tail[..|token|] == token;
  }

  /** The token the header carries; an absent header or an empty field is no token. */
  function TokenOf(header: Option<string>): Option<string> {
    if header.None? then None
    else
      match SecondField(header.value)
      case None => None
      case Some(t) => if t == "" then None else Some(t)
  }

  /** `prisma.user.findUnique({ where: { id } })`. */
  function UserById(users: seq<User>, id: Id): Option<User> {
    match FirstIndex(users, (u: User) => u.id == id)
    case None => None
    case Some(k) => Some(users[k])
  }

  /**
   * `authenticateToken`, as a decision: the user it attaches to the request, or
   * the response it sends. `verify` stands for `jwt.verify` followed by reading
   * the `userId` claim; None when the token does not verify.
   */
  function Authenticate(header: Option<string>, verify: string -> Option<Id>, users: seq<User>): (r: (Gate, Option<User>))
    ensures r.0.CallNext? <==> r.1.Some?
    ensures r.0.Respond? ==> r.0.code in {401, 403}
    ensures r.1.Some? ==> r.1.value in users && TokenOf(header).Some? && verify(TokenOf(header).value) == Some(r.1.value.id)
  {
    match TokenOf(header)
    case None => (Respond(401, MissingToken), None)
    case Some(token) =>
      match verify(token)
      case None => (Respond(403, InvalidToken), None)
      case Some(id) =>
        match UserById(users, id)
        case None => (Respond(403, UnknownUser), None)
        case Some(u) => (CallNext, Some(u))
  }

  /** The three refusals in order: no token 401, a token that does not verify 403, no such user 403. */
  lemma AuthenticateOutcomes(header: Option<string>, verify: string -> Option<Id>, users: seq<User>)
    ensures TokenOf(header).None? ==> Authenticate(header, verify, users) == (Respond(401, MissingToken), None)
    ensures TokenOf(header).Some? && verify(TokenOf(header).value).None? ==>
      Authenticate(header, verify, users) == (Respond(403, InvalidToken), None)
    ensures TokenOf(header).Some? && verify(TokenOf(header).value).Some? ==>
      var id := verify(TokenOf(header).value).value;
      (Authenticate(header, verify, users).1.Some? <==> exists u :: u in users && u.id == id)
  {
    if TokenOf(header).Some? && verify(TokenOf(header).value).Some? {
      var id := verify(TokenOf(header).value).value;
      if exists u :: u in users && u.id == id {
        var u :| u in users && u.id == id;
        var k :| 0 <= k < |users| && users[k] == u;
        assert FirstIndex(users, (u: User) => u.id == id).Some?;
      }
    }
  }

  /** `requireRole(roles)`, as a decision on the user attached to the request. */
  function RoleGate(roles: seq<Role>, user: Option<User>): (g: Gate)
    ensures g.CallNext? <==> user.Some? && user.value.role in roles
    ensures user.None? ==> g == Respond(401, Unauthorized)
    ensures user.Some? && user.value.role !in roles ==> g == Respond(403, Forbidden)
  {
    if user.None? then Respond(401, Unauthorized)
    else if user.value.role !in roles then Respond(403, Forbidden)
    else CallNext
  }

  /** The parts of an Express request and response the middleware touches. */
  class Exchange {
    var user: Option<User>
    var response: Option<(int, Failure)>
    var nextCalls: nat

    constructor (user: Option<User>)
      ensures this.user == user && response.None? && nextCalls == 0
    {
      this.user := user;
      response := None;
      nextCalls := 0;
    }

    /** Sends `res.status(code).json(...)`, or calls `next()`. */
    method Perform(g: Gate)
      modifies this
      ensures user == old(user)
      ensures g.Respond? ==> response == Some((g.code, g.failure)) && nextCalls == old(nextCalls)
      ensures g.CallNext? ==> response == old(response) && nextCalls == old(nextCalls) + 1
    {
      if g.Respond? {
        response := Some((g.code, g.failure));
      } else {
        nextCalls := nextCalls + 1;
      }
    }
  }

  /** The middleware run on an exchange: sets `req.user` only on success, then responds or calls next once. */
  method AuthenticateToken(ex: Exchange, header: Option<string>, verify: string -> Option<Id>, users: seq<User>)
    modifies ex
    ensures var (g, u) := Authenticate(header, verify, users);
            && (u.Some? ==> ex.user == u)
            && (u.None? ==> ex.user == old(ex.user))
            && (g.Respond? ==> ex.response == Some((g.code, g.failure)) && ex.nextCalls == old(ex.nextCalls))
            && (g.CallNext? ==> ex.response == old(ex.response) && ex.nextCalls == old(ex.nextCalls) + 1)
  {
    var token := TokenOf(header);
    if token.None? {
      ex.Perform(Respond(401, MissingToken));
      return;
    }
    var decoded := verify(token.value);
    if decoded.None? {
      ex.Perform(Respond(403, InvalidToken));
      return;
    }
    var user := UserById(users, decoded.value);
    if user.None? {
      ex.Perform(Respond(403, UnknownUser));
      return;
    }
    ex.user := user;
    ex.Perform(CallNext);
  }

  /** The middleware run on an exchange: at most one of responding and calling next, never changing the user. */
  method RequireRole(ex: Exchange, roles: seq<Role>)
    modifies ex
    ensures var g := RoleGate(roles, old(ex.user));
            && ex.user == old(ex.user)
            && (g.Respond? ==> ex.response == Some((g.code, g.failure)) && ex.nextCalls == old(ex.nextCalls))
            && (g.CallNext? ==> ex.response == old(ex.response) && ex.nextCalls == old(ex.nextCalls) + 1)
  {
    if ex.user.None? {
      ex.Perform(Respond(401, Unauthorized));
      return;
    }
    if ex.user.value.role !in roles {
      ex.Perform(Respond(403, Forbidden));
      return;
    }
    ex.Perform(CallNext);
  }

  /**
   * A route guarded by `authenticateToken` then `requireRole(roles)`: the user
   * the handler runs with, or the first refusal.
   */
  function Guarded(header: Option<string>, verify: string -> Option<Id>, users: seq<User>, roles: seq<Role>): (r: Admission)
    ensures r.Admitted? <==> Authenticate(header, verify, users).1.Some? && Authenticate(header, verify, users).1.value.role in roles
    ensures r.Admitted? ==> r.user.role in roles && r.user in users
    ensures r.Refused? ==> r.code in {401, 403}
  {
    match Authenticate(header, verify, users)
    case (Respond(code, f), _) => Refused(code, f)
    case (CallNext, u) =>
      match RoleGate(roles, u)
      case Respond(code, f) => Refused(code, f)
      case CallNext => Admitted(u.value)
  }
}
