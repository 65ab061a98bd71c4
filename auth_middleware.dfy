/**
 * The guard chain in front of every mutating route
 * (src/middleware/auth.middleware.js): `verifyToken` checks the bearer token
 * and writes its claims onto the request; `isAdmin` looks up the caller's
 * stored role. Each decides to call `next` or to answer with an error status.
 */
module AuthMiddleware {
  import opened Wrappers
  import opened Store
  import opened Jwt

  const BearerPrefix := "Bearer "

  predicate HasBearerPrefix(header: string)
  {
    BearerPrefix <= header
  }

  /** The token carried by an Authorization header: without the "Bearer " prefix if it has one. */
  function ExtractToken(header: string): (token: string)
    ensures HasBearerPrefix(header) ==> header == BearerPrefix + token
    ensures !HasBearerPrefix(header) ==> token == header
  {
    if HasBearerPrefix(header) then header[|BearerPrefix|..] else header
  }

  /** Extraction undoes prefixing. */
  lemma ExtractTokenOfBearer(token: string)
    ensures ExtractToken(BearerPrefix + token) == token
  {
    assert HasBearerPrefix(BearerPrefix + token);
  }

  /** Only the exact prefix is removed: another casing or a missing space leaves the header as it is. */
  lemma OtherPrefixesKept()
    ensures ExtractToken("bearer abc") == "bearer abc"
    ensures ExtractToken("BEARER abc") == "BEARER abc"
    ensures ExtractToken("Bearerabc") == "Bearerabc"
  {
    assert !HasBearerPrefix("bearer abc") by { assert "bearer abc"[0] != BearerPrefix[0]; }
    assert !HasBearerPrefix("BEARER abc") by { assert "BEARER abc"[1] != BearerPrefix[1]; }
    assert !HasBearerPrefix("Bearerabc") by { assert "Bearerabc"[6] != BearerPrefix[6]; }
  }

  /** The three outcomes of `verifyToken`. */
  datatype TokenCheck = NoToken | Rejected | Verified(claims: Claims)

  function CheckToken(header: Option<string>, verify: Verifier): (c: TokenCheck)
    ensures c == NoToken <==> header.None? || header.value == ""
    ensures c == Rejected <==> header.Some? && header.value != "" && verify(ExtractToken(header.value)).None?
    ensures c.Verified? ==> header.Some? && verify(ExtractToken(header.value)) == Some(c.claims)
  {
    if header.None? || header.value == "" then NoToken
    else match verify(ExtractToken(header.value))
      case None => Rejected
      case Some(claims) => Verified(claims)
  }

  /** What a guard does: call `next`, or answer with a status and a `{ message }` body. */
  datatype Verdict = Proceed | Deny(status: nat, message: string)

  function TokenVerdict(c: TokenCheck): (v: Verdict)
    ensures v == Proceed <==> c.Verified?
  {
    match c
    case NoToken => Deny(403, "No token provided!")
    case Rejected => Deny(401, "Unauthorized!")
    case Verified(_) => Proceed
  }

  /** The row `select("role")` returns; the role column may be NULL. */
  datatype RoleRow = RoleRow(role: Option<string>)

  /** The users table, looked up by `req.userId` with `.single()`. */
  type UserTable = Option<string> -> Call<Reply<RoleRow>>

  /** The four outcomes of `isAdmin`. */
  datatype RoleCheck = UserNotFound | NotAdmin | Admin | CheckFailed

  function CheckRole(lookup: Call<Reply<RoleRow>>): (c: RoleCheck)
    ensures c == CheckFailed <==> lookup.Threw?
    ensures c == UserNotFound <==> lookup.Returned? && (lookup.value.error.Some? || lookup.value.data.None?)
    ensures c == Admin <==>
      lookup.Returned? && lookup.value.error.None? && lookup.value.data == Some(RoleRow(Some("admin")))
  {
    match lookup
    case Threw(_) => CheckFailed
    case Returned(reply) =>
      if reply.error.Some? || reply.data.None? then UserNotFound
      else if reply.data.value.role != Some("admin") then NotAdmin
      else Admin
  }

  function RoleVerdict(c: RoleCheck): (v: Verdict)
    ensures v == Proceed <==> c == Admin
  {
    match c
    case UserNotFound => Deny(404, "User not found!")
    case NotAdmin => Deny(403, "Require Admin Role!")
    case CheckFailed => Deny(500, "Unable to validate user role!")
    case Admin => Proceed
  }

  /** `verifyToken` then `isAdmin`, as every mutating route wires them. */
  function AdminGate(header: Option<string>, verify: Verifier, users: UserTable): (v: Verdict)
    // isAdmin runs only once verifyToken accepted, and looks up the verified token's user
    ensures match CheckToken(header, verify)
      case Verified(claims) => v == RoleVerdict(CheckRole(users(Some(claims.id))))
      case c => v == TokenVerdict(c) && v.Deny?
  {
    match CheckToken(header, verify)
    case Verified(claims) => RoleVerdict(CheckRole(users(Some(claims.id))))
    case c => TokenVerdict(c)
  }

  /**
   * The handler behind the two guards runs exactly when the header is present,
   * the token verifies, and the stored role of the token's user is exactly "admin".
   */
  lemma AdminGateOpensIff(header: Option<string>, verify: Verifier, users: UserTable)
    ensures AdminGate(header, verify, users) == Proceed
        <==> header.Some? && header.value != ""
             && verify(ExtractToken(header.value)).Some?
             && var lookup := users(Some(verify(ExtractToken(header.value)).value.id));
                lookup.Returned? && lookup.value.error.None?
                && lookup.value.data == Some(RoleRow(Some("admin")))
  {
    match CheckToken(header, verify)
    case NoToken =>
    case Rejected =>
    case Verified(claims) =>
  }

  /** Every refusal of the chain carries one of the guards' own statuses. */
  lemma AdminGateStatuses(header: Option<string>, verify: Verifier, users: UserTable)
    ensures var v := AdminGate(header, verify, users);
      v.Deny? ==> v.status in {401, 403, 404, 500}
    ensures AdminGate(header, verify, users) == Deny(403, "No token provided!") <==> header.None? || header.value == ""
  {
  }

  /** The incoming request: its headers, and the claims `verifyToken` writes onto it. */
  class Request {
    const headers: map<string, string>
    var userId: Option<string>
    var userEmail: Option<string>

    constructor (headers: map<string, string>)
      ensures this.headers == headers && userId.None? && userEmail.None?
    {
      this.headers := headers;
      userId := None;
      userEmail := None;
    }

    /** `req.headers["authorization"]` (header names arrive lower-cased). */
    function Authorization(): (header: Option<string>)
      ensures header.Some? <==> "authorization" in headers
      ensures header.Some? ==> header.value == headers["authorization"]
    {
      if "authorization" in headers then Some(headers["authorization"]) else None
    }
  }

  /** The outgoing response: its status and the `message` of the JSON body sent, if any. */
  class Response {
    var statusCode: nat
    var message: Option<string>

    constructor ()
      ensures statusCode == 200 && message.None?
    {
      statusCode := 200;
      message := None;
    }

    /** `res.status(code).json({ message })`. */
    method Send(code: nat, text: string)
      modifies this
      ensures statusCode == code && message == Some(text)
    {
      statusCode := code;
      message := Some(text);
    }
  }

  /** The `next` callback, counting how often it has been invoked. */
  class Next {
    var calls: nat

    constructor ()
      ensures calls == 0
    {
      calls := 0;
    }

    method Invoke()
      modifies this
      ensures calls == old(calls) + 1
    {
      calls := calls + 1;
    }
  }

  method VerifyToken(req: Request, res: Response, next: Next, verify: Verifier)
    modifies req, res, next
    ensures match CheckToken(req.Authorization(), verify)
      case Verified(claims) =>
        req.userId == Some(claims.id) && req.userEmail == Some(claims.email)
        && next.calls == old(next.calls) + 1 && unchanged(res)
      case c =>
        unchanged(req, next)
        && res.statusCode == TokenVerdict(c).status && res.message == Some(TokenVerdict(c).message)
  {
    var token := req.Authorization();
    if token.None? || token.value == "" {
      res.Send(403, "No token provided!");
      return;
    }
    var tokenString := ExtractToken(token.value);
    match verify(tokenString)
    case None =>
      res.Send(401, "Unauthorized!");
    case Some(decoded) =>
      req.userId := Some(decoded.id);
      req.userEmail := Some(decoded.email);
      next.Invoke();
  }

  method IsAdmin(req: Request, res: Response, next: Next, users: UserTable)
    modifies res, next
    ensures var c := CheckRole(users(req.userId));
      if c == Admin then next.calls == old(next.calls) + 1 && unchanged(res)
      else unchanged(next) && res.statusCode == RoleVerdict(c).status && res.message == Some(RoleVerdict(c).message)
  {
    match users(req.userId)
    case Threw(_) =>
      res.Send(500, "Unable to validate user role!");
    case Returned(reply) =>
      if reply.error.Some? || reply.data.None? {
        res.Send(404, "User not found!");
        return;
      }
      if reply.data.value.role != Some("admin") {
        res.Send(403, "Require Admin Role!");
        return;
      }
      next.Invoke();
  }

  /**
   * A mutating route: `verifyToken`, then `isAdmin` if it called `next`, then
   * the handler if that called `next` in turn.
   */
  method AdminRoute(req: Request, res: Response, verify: Verifier, users: UserTable) returns (handlerRuns: bool)
    modifies req, res
    ensures handlerRuns <==> AdminGate(req.Authorization(), verify, users) == Proceed
    ensures !handlerRuns ==>
      var v := AdminGate(req.Authorization(), verify, users);
      res.statusCode == v.status && res.message == Some(v.message)
    ensures handlerRuns ==> unchanged(res)
    // verifyToken writes the verified claims onto the request, and isAdmin looks up that user
    ensures match CheckToken(req.Authorization(), verify)
      case Verified(claims) => req.userId == Some(claims.id) && req.userEmail == Some(claims.email)
      case _ => unchanged(req)
    ensures handlerRuns ==> CheckRole(users(req.userId)) == Admin
  {
    var toAdmin := new Next();
    VerifyToken(req, res, toAdmin, verify);
    handlerRuns := false;
    if toAdmin.calls == 1 {
      var toHandler := new Next();
      IsAdmin(req, res, toHandler, users);
      handlerRuns := toHandler.calls == 1;
    }
  }
}
