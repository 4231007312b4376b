/**
 * The per-client state that express-session keeps (`req.session`) and the
 * per-request `req.user` that middleware fills in, as objects the handlers
 * update in place.
 */
module Sessions {
  import opened Wrappers
  import opened CartModel

  /** The outcome of an Express guard: call `next()`, or answer with an error status. */
  datatype Guard = Next | Reject(status: int, requiresLogin: bool)

  /** The columns of `users` that `attachUser` copies to `req.user`. */
  datatype UserView = UserView(id: int, name: string, email: string, phone: string)

  class Session {
    var userId: Option<int>
    var userName: Option<string>
    var isAdmin: bool
    var adminUsername: Option<string>
    /** Read by middleware/auth.js; nothing in the repository ever assigns it. */
    var adminId: Option<int>
    /** `undefined` until `initCart` runs. */
    var cart: Option<seq<CartEntry>>

    /** The cart keeps each (foodId, hotelId) key at most once. */
    ghost predicate CartValid()
      reads this
    {
      cart.Some? ==> UniqueKeys(cart.value)
    }

    /** A new session holds none of the keys. */
    constructor ()
      ensures userId == None && userName == None && !isAdmin && adminUsername == None
      ensures adminId == None && cart == None && CartValid()
    {
      userId, userName := None, None;
      isAdmin, adminUsername, adminId := false, None, None;
      cart := None;
    }
  }

  class Request {
    var user: Option<UserView>

    constructor ()
      ensures user == None
    {
      user := None;
    }
  }
}
