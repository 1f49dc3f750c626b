/**
 * The session guard of the news API: `checkAuth` reads a bearer token from the
 * `Authorization` header and validates it; `requireAdmin` and `requireRole` gate on the
 * role of the decoded claims; `checkAdmin` chains the first two. Token validation (a
 * JWT signature and expiry check) is the parameter `validate`: it gives the decoded
 * claims or `None`.
 */
module SessionGuard {
  import opened Wrappers
  import opened Text

  /** The decoded token payload, as far as the middleware looks at it. */
  datatype Claims = Claims(id: string, role: Option<string>)

  /** The JSON body of an error answer. */
  datatype Body =
    | Message(message: string)
    | RoleDenied(message: string, userRole: string)

  datatype Response = Response(status: int, body: Body)

  /** What `checkAuth` decides: answer with an error, or admit the request with its claims. */
  datatype AuthVerdict = Deny(response: Response) | Admit(claims: Claims)

  /** What a role gate decides: answer with an error, or pass on to the next handler. */
  datatype GateVerdict = Refuse(response: Response) | Pass

  const Prefix: string := "Bearer "

  /**
   * `authHeader.split(" ")[1]` for a header that starts with "Bearer ": the text after
   * the first space, up to the next space.
   */
  function BearerToken(header: string): (token: string)
    requires StartsWith(header, Prefix)
    ensures token == TakeUntil(header[|Prefix|..], ' ')
    ensures ' ' !in token
  {
    assert header == "Bearer" + [' '] + header[|Prefix|..] by {
      assert header[..|Prefix|] == Prefix;
    }
    SplitAfterPiece("Bearer", ' ', header[|Prefix|..]);
    FirstPieceIsTakeUntil(header[|Prefix|..], ' ');
    Split(header, " ")[1]
  }

  /** Two spaces after "Bearer" make the token the empty string. */
  lemma DoubleSpaceGivesEmptyToken(rest: string)
    ensures BearerToken("Bearer  " + rest) == ""
  {
    var h := "Bearer  " + rest;
    assert h[..|Prefix|] == Prefix;
    assert h[|Prefix|..] == " " + rest;
  }

  /** The token stops at the first space after the prefix. */
  lemma TokenStopsAtSpace(token: string, rest: string)
    requires ' ' !in token
    ensures BearerToken(Prefix + token + " " + rest) == token
  {
    var h := Prefix + token + " " + rest;
    assert h[..|Prefix|] == Prefix;
    assert h[|Prefix|..] == token + [' '] + rest;
    SplitAfterPiece(token, ' ', rest);
    FirstPieceIsTakeUntil(token + [' '] + rest, ' ');
  }

  /** The header carries a bearer token that validates. */
  predicate Authenticates(header: Option<string>, validate: string -> Option<Claims>) {
    header.Some? && StartsWith(header.value, Prefix) && validate(BearerToken(header.value)).Some?
  }

  /** `checkAuth`'s decision. */
  function Authenticate(header: Option<string>, validate: string -> Option<Claims>): (v: AuthVerdict)
    ensures v.Admit? <==> Authenticates(header, validate)
    ensures v.Admit? ==> Some(v.claims) == validate(BearerToken(header.value))
    ensures v.Deny? ==> v.response.status == 401
    ensures header.None? || !StartsWith(header.value, Prefix) ==>
      v == Deny(Response(401, Message("No token provided")))
    ensures header.Some? && StartsWith(header.value, Prefix) && v.Deny? ==>
      v.response.body == Message("Invalid token")
  {
    if header.None? || !StartsWith(header.value, Prefix) then
      Deny(Response(401, Message("No token provided")))
    else
      match validate(BearerToken(header.value))
      case None => Deny(Response(401, Message("Invalid token")))
      case Some(decoded) => Admit(decoded)
  }

  /** `req.user.role || "no role"`. */
  function RoleText(c: Claims): (t: string)
    ensures t != ""
    ensures c.role.Some? && c.role.value != "" ==> t == c.role.value
  {
    if c.role.Some? && c.role.value != "" then c.role.value else "no role"
  }

  /** `requireAdmin`'s decision on `req.user`. */
  function AdminDecision(user: Option<Claims>): (v: GateVerdict)
    ensures v.Pass? <==> user.Some? && user.value.role == Some("admin")
    ensures user.None? ==> v == Refuse(Response(401, Message("Authentication required")))
    ensures user.Some? && v.Refuse? ==>
      v.response == Response(403, RoleDenied("Admin access required", RoleText(user.value)))
  {
    if user.None? then Refuse(Response(401, Message("Authentication required")))
    else if user.value.role != Some("admin") then
      Refuse(Response(403, RoleDenied("Admin access required", RoleText(user.value))))
    else Pass
  }

  /** The middleware `requireRole(role)` builds, applied to `req.user`. */
  function RoleDecision(role: string, user: Option<Claims>): (v: GateVerdict)
    ensures v.Pass? <==> user.Some? && user.value.role == Some(role)
    ensures user.None? ==> v == Refuse(Response(401, Message("Authentication required")))
    ensures user.Some? && v.Refuse? ==>
      v.response == Response(403, RoleDenied(role + " access required", RoleText(user.value)))
  {
    if user.None? then Refuse(Response(401, Message("Authentication required")))
    else if user.value.role != Some(role) then
      Refuse(Response(403, RoleDenied(role + " access required", RoleText(user.value))))
    else Pass
  }

  /**
   * `requireRole("admin")` decides exactly as `requireAdmin` does: same outcome, same
   * status, same reported role; only the capital letter of the 403 message differs.
   */
  lemma RoleGateGeneralisesAdmin(user: Option<Claims>)
    ensures RoleDecision("admin", user).Pass? <==> AdminDecision(user).Pass?
    ensures RoleDecision("admin", user).Refuse? ==>
      && RoleDecision("admin", user).response.status == AdminDecision(user).response.status
      && (user.None? ==> RoleDecision("admin", user) == AdminDecision(user))
      && (user.Some? ==>
            RoleDecision("admin", user).response.body.userRole == AdminDecision(user).response.body.userRole
            && RoleDecision("admin", user).response.body.message == "admin access required"
            && AdminDecision(user).response.body.message == "Admin access required")
  {
  }

  /** `checkAdmin = [checkAuth, requireAdmin]`: the handler runs only when both pass. */
  predicate AdminChainPasses(header: Option<string>, validate: string -> Option<Claims>) {
    Authenticate(header, validate).Admit?
    && AdminDecision(Some(Authenticate(header, validate).claims)).Pass?
  }

  /**
   * A request that passes `checkAdmin` carries a bearer token that validates to claims
   * whose role is "admin", and every such request passes.
   */
  lemma AdminChainSound(header: Option<string>, validate: string -> Option<Claims>)
    ensures AdminChainPasses(header, validate) <==>
      header.Some? && StartsWith(header.value, Prefix)
      && validate(BearerToken(header.value)).Some?
      && validate(BearerToken(header.value)).value.role == Some("admin")
  {
  }

  /**
   * One request passing through the middleware: the header it carries, the `req.user`
   * the middleware sets, the responses written and the number of `next()` calls.
   */
  class Exchange {
    const authorization: Option<string>
    var user: Option<Claims>
    var sent: seq<Response>
    var nextCalls: nat

    constructor (header: Option<string>)
      ensures authorization == header && user.None? && sent == [] && nextCalls == 0
    {
      authorization := header;
      user := None;
      sent := [];
      nextCalls := 0;
    }

    /**
     * `checkAuth`: either writes the 401 answer and leaves `req.user` alone, or sets
     * `req.user` to the decoded claims and calls `next` once.
     */
    method CheckAuth(validate: string -> Option<Claims>)
      modifies this
      ensures match Authenticate(authorization, validate)
        case Deny(r) => sent == old(sent) + [r] && user == old(user) && nextCalls == old(nextCalls)
        case Admit(c) => user == Some(c) && sent == old(sent) && nextCalls == old(nextCalls) + 1
    {
      var verdict := Authenticate(authorization, validate);
      match verdict
      case Deny(r) =>
        sent := sent + [r];
      case Admit(c) =>
        user := Some(c);
        nextCalls := nextCalls + 1;
    }

    /** A role gate applied to `req.user`: answers or calls `next`, never both. */
    method ApplyGate(verdict: GateVerdict)
      modifies this
      ensures user == old(user)
      ensures verdict.Refuse? ==> sent == old(sent) + [verdict.response] && nextCalls == old(nextCalls)
      ensures verdict.Pass? ==> sent == old(sent) && nextCalls == old(nextCalls) + 1
    {
      match verdict
      case Refuse(r) =>
        sent := sent + [r];
      case Pass =>
        nextCalls := nextCalls + 1;
    }

    method RequireAdmin()
      modifies this
      ensures user == old(user)
      ensures match AdminDecision(user)
        case Refuse(r) => sent == old(sent) + [r] && nextCalls == old(nextCalls)
        case Pass => sent == old(sent) && nextCalls == old(nextCalls) + 1
    {
      ApplyGate(AdminDecision(user));
    }

    method RequireRole(role: string)
      modifies this
      ensures user == old(user)
      ensures match RoleDecision(role, user)
        case Refuse(r) => sent == old(sent) + [r] && nextCalls == old(nextCalls)
        case Pass => sent == old(sent) && nextCalls == old(nextCalls) + 1
    {
      ApplyGate(RoleDecision(role, user));
    }

    /**
     * The route chain `checkAdmin`: the handler is reached exactly when the chain passes,
     * and then `req.user` holds admin claims; otherwise exactly one answer was written.
     */
    method CheckAdmin(validate: string -> Option<Claims>) returns (reachesHandler: bool)
      modifies this
      ensures reachesHandler <==> AdminChainPasses(authorization, validate)
      ensures reachesHandler ==> user.Some? && user.value.role == Some("admin") && sent == old(sent)
      ensures !reachesHandler ==> |sent| == |old(sent)| + 1
    {
      var before := nextCalls;
      CheckAuth(validate);
      if nextCalls > before {
        var middle := nextCalls;
        RequireAdmin();
        reachesHandler := nextCalls > middle;
      } else {
        reachesHandler := false;
      }
    }
  }
}
