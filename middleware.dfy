/**
 * The guards of middleware/auth.js: `requireAuth` on the user session,
 * `requireAdmin` on the session's `adminId`, and `attachUser`, which copies
 * the signed-in user's public columns onto the request.
 */
module Middleware {
  import opened Wrappers
  import opened JsValues
  import opened Store
  import opened Sessions

  /** `requireAuth`: `next()` when the session holds a truthy `userId`, else 401 asking to log in. */
  function RequireAuth(session: Option<Session>): (g: Guard)
    reads if session.Some? then {session.value} else {}
    ensures g.Next? <==> session.Some? && IntTruthy(session.value.userId)
    ensures g.Reject? ==> g.status == 401 && g.requiresLogin
  {
    if session.Some? && IntTruthy(session.value.userId) then Next else Reject(401, true)
  }

  /** `requireAdmin`: `next()` only when the session holds a truthy `adminId`, else 401. */
  function RequireAdmin(session: Option<Session>): (g: Guard)
    reads if session.Some? then {session.value} else {}
    ensures g.Next? <==> session.Some? && IntTruthy(session.value.adminId)
    ensures g.Reject? ==> g.status == 401 && !g.requiresLogin
  {
    if session.Some? && IntTruthy(session.value.adminId) then Next else Reject(401, false)
  }

  /**
   * No handler in the repository assigns `adminId`, so on every session that
   * the handlers produce from a fresh one the admin guard rejects.
   */
  lemma AdminGuardRejectsUnsetId(session: Session)
    requires session.adminId == None
    ensures RequireAdmin(Some(session)) == Reject(401, false)
  {
  }

  /** The view `attachUser` selects: `id, name, email, phone`, without the password hash. */
  function ViewOf(id: int, user: User): (v: UserView)
    ensures v.id == id && v.name == user.name && v.email == user.email && v.phone == user.phone
  {
    UserView(id, user.name, user.email, user.phone)
  }

  /**
   * `attachUser`: when the session holds a truthy `userId` and the lookup
   * finds that user, `req.user` becomes its public view; a missing user or a
   * failing lookup (logged and swallowed) leaves `req.user` as it was.
   * The single `next()` after the guarded lookup is the method's return:
   * the error is never passed on, so the request always continues.
   */
  method AttachUser(req: Request, session: Option<Session>, users: map<int, User>, lookupFails: bool)
    modifies req`user
    ensures (session.Some? && IntTruthy(session.value.userId) && !lookupFails && session.value.userId.value in users)
      ==> req.user == Some(ViewOf(session.value.userId.value, users[session.value.userId.value]))
    ensures !(session.Some? && IntTruthy(session.value.userId) && !lookupFails && session.value.userId.value in users)
      ==> req.user == old(req.user)
  {
    if session.Some? && IntTruthy(session.value.userId) {
      var id := session.value.userId.value;
      if !lookupFails && id in users {
        req.user := Some(ViewOf(id, users[id]));
      }
    }
  }
}
