/**
 * The Next.js authentication helpers: `authenticate` strips `"Bearer "` from
 * the `Authorization` header and verifies what is left; `requireRole(allowed)`
 * refuses a user whose role is not listed. The route files carry their own
 * copy of `authenticate` that returns null instead of a response.
 */
module NextAuth {
  import opened Wrappers
  import opened Model
  import opened Seqs

  /** `s.replace(pat, rep)` with a string pattern: only the first occurrence is replaced. */
  function ReplaceFirst(s: string, pat: string, rep: string): (r: string)
    ensures IndexOf(s, pat).None? ==> r == s
    ensures IndexOf(s, pat).Some? ==> |r| == |s| - |pat| + |rep|
  {
    match IndexOf(s, pat)
    case None => s
    case Some(i) => s[..i] + rep + s[i + |pat|..]
  }

  /** `request.headers.get('authorization')?.replace('Bearer ', '')`. */
  function StripBearer(header: Option<string>): Option<string> {
    if header.None? then None else Some(ReplaceFirst(header.value, "Bearer ", ""))
  }

  /** A header of the form `Bearer <token>` yields the token, whatever it contains. */
  lemma StripBearerPrefix(token: string)
    ensures StripBearer(Some("Bearer " + token)) == Some(token)
  {
    var h := "Bearer " + token;
    assert h[0..7] == "Bearer ";
    assert OccursAt(h, "Bearer ", 0);
    assert IndexOf(h, "Bearer ") == Some(0);
    assert h[..0] + "" + h[7..] == token;
  }

  /** A header that does not contain `Bearer ` is used as the token unchanged. */
  lemma StripBearerAbsent(h: string)
    requires forall j :: 0 <= j <= |h| ==> !OccursAt(h, "Bearer ", j)
    ensures StripBearer(Some(h)) == Some(h)
  {
  }

  /** The removal is of the first occurrence anywhere, not of a prefix: `xBearer t` yields `xt`. */
  lemma StripBearerNotAnchored()
    ensures StripBearer(Some("xBearer t")) == Some("xt")
  {
    var h := "xBearer t";
    assert !OccursAt(h, "Bearer ", 0) by { assert h[0] == 'x'; }
    assert h[1..8] == "Bearer ";
    assert OccursAt(h, "Bearer ", 1);
    assert h[..1] + "" + h[8..] == "xt";
  }

  /**
   * `authenticate` of the shared helper: `verify` stands for `jwt.verify`, the
   * claims it decodes or None when it throws. A missing or empty token and a
   * token that does not verify are both 401, told apart by their message.
   */
  function Authenticate(header: Option<string>, verify: string -> Option<User>): (r: Admission)
    ensures r.Refused? ==> r.code == 401
    ensures r.Admitted? <==> StripBearer(header).Some? && StripBearer(header).value != "" && verify(StripBearer(header).value).Some?
    ensures r.Admitted? ==> r.user == verify(StripBearer(header).value).value
  {
    var token := StripBearer(header);
    if token.None? || token.value == "" then Refused(401, MissingToken)
    else
      match verify(token.value)
      case None => Refused(401, InvalidToken)
      case Some(u) => Admitted(u)
  }

  /** The route files' own `authenticate`: the decoded claims, or null. */
  function AuthenticateOrNull(header: Option<string>, verify: string -> Option<User>): Option<User> {
    var token := StripBearer(header);
    if token.None? || token.value == "" then None else verify(token.value)
  }

  /** The route-local copy admits exactly the users the shared helper admits. */
  lemma LocalCopyAgrees(header: Option<string>, verify: string -> Option<User>)
    ensures AuthenticateOrNull(header, verify).Some? <==> Authenticate(header, verify).Admitted?
    ensures Authenticate(header, verify).Admitted? ==>
      AuthenticateOrNull(header, verify) == Some(Authenticate(header, verify).user)
  {
  }

  /** `requireRole(allowed)(user)`: None lets the handler go on, otherwise the 403 reply. */
  function RequireRole(allowed: seq<Role>, user: User): (r: Option<(int, Failure)>)
    ensures r.None? <==> user.role in allowed
    ensures r.Some? ==> r.value == (403, Forbidden)
  {
    if user.role !in allowed then Some((403, Forbidden)) else None
  }

  /** The decision reads the role only, and an empty list admits nobody. */
  lemma RequireRoleReadsOnlyRole(allowed: seq<Role>, u: User, u': User)
    requires u.role == u'.role
    ensures RequireRole(allowed, u) == RequireRole(allowed, u')
    ensures RequireRole([], u) == Some((403, Forbidden))
  {
  }
}
