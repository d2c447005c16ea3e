/** The request as the handlers see it, the shape of their answers, and the
    `requireAuth` / `requireAdmin` guards (server/src/middleware/auth.ts). */
module AuthMiddleware {
  import opened Common
  import opened Domain

  /** A handler's answer: a status code with a payload, or a status code
      with an `{ error }` body. */
  datatype Reply<T> = Ok(code: int, value: T) | Fail(code: int, error: string)

  /** The parts of an express request that the handlers read and write:
      `req.session.user` and `req.user`. */
  class Request {
    var session: Option<SessionUser>
    var user: Option<SessionUser>

    constructor (session0: Option<SessionUser>)
      ensures session == session0 && user == None
    {
      session := session0;
      user := None;
    }
  }

  /** What a guard decides: call `next`, or answer with an error. */
  datatype Gate = Next | Deny(code: int, error: string)

  /** The decision of `requireAuth` (`adminOnly` false) and `requireAdmin`
      (`adminOnly` true). */
  function Decide(session: Option<SessionUser>, adminOnly: bool): (g: Gate)
    ensures g.Next? <==> session.Some? && (adminOnly ==> session.value.role == AdminRole)
    ensures session.None? ==> g == Deny(401, "Authentication required")
    ensures session.Some? && adminOnly && session.value.role != AdminRole ==> g == Deny(403, "Admin access required")
  {
    if session.None? then Deny(401, "Authentication required")
    else if adminOnly && session.value.role != AdminRole then Deny(403, "Admin access required")
    else Next
  }

  /** `requireAuth`: with a session user, copies it to `req.user` and lets
      the request through; without one, answers 401 and leaves `req.user`
      alone. */
  method RequireAuth(req: Request) returns (g: Gate)
    modifies req
    ensures g == Decide(req.session, false)
    ensures req.session == old(req.session)
    ensures g.Next? ==> req.user == req.session
    ensures g.Deny? ==> req.user == old(req.user)
  {
    if req.session.None? {
      return Deny(401, "Authentication required");
    }
    req.user := req.session;
    return Next;
  }

  /** `requireAdmin`: lets only admins through, so whatever it admits
      `requireAuth` would admit too. */
  method RequireAdmin(req: Request) returns (g: Gate)
    modifies req
    ensures g == Decide(req.session, true)
    ensures g.Next? ==> Decide(req.session, false).Next?
    ensures req.session == old(req.session)
    ensures g.Next? ==> req.user == req.session
    ensures g.Deny? ==> req.user == old(req.user)
  {
    if req.session.None? {
      return Deny(401, "Authentication required");
    }
    if req.session.value.role != AdminRole {
      return Deny(403, "Admin access required");
    }
    req.user := req.session;
    return Next;
  }
}
