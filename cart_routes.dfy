/**
 * The handlers of routes/cart.js, which keep the cart in the session and
 * change it in place: `initCart`, get, add, update, remove, clear, count.
 */
module CartRoutes {
  import opened Wrappers
  import opened JsValues
  import opened CartModel
  import opened Sessions

  /** What a cart handler answers: the cart's count, or an error status. */
  datatype CartReply = CartOk(count: int) | CartError(status: int)

  /** The cart `initCart` leaves: the stored one, or a new empty one when none exists. */
  function Initialised(cart: Option<seq<CartEntry>>): (r: seq<CartEntry>)
    ensures cart.Some? ==> r == cart.value
    ensures cart.None? ==> r == []
  {
    cart.GetOr([])
  }

  /** Running `initCart` again changes nothing. */
  lemma InitialisedIdempotent(cart: Option<seq<CartEntry>>)
    ensures Initialised(Some(Initialised(cart))) == Initialised(cart)
  {
  }

  /** `initCart`: creates an empty cart only when the session has none. */
  method InitCart(session: Session)
    requires session.CartValid()
    modifies session`cart
    ensures session.cart == Some(Initialised(old(session.cart)))
    ensures session.CartValid()
  {
    if session.cart.None? {
      session.cart := Some([]);
    }
  }

  /** `GET /cart` and `GET /cart/count`: initialise, then answer with the sum of quantities. */
  method GetCount(session: Session) returns (reply: CartReply)
    requires session.CartValid()
    modifies session`cart
    ensures session.cart == Some(Initialised(old(session.cart)))
    ensures session.CartValid()
    ensures reply == CartOk(Count(session.cart.value))
  {
    InitCart(session);
    reply := CartOk(Count(session.cart.value));
  }

  /** The entry `POST /add` pushes for a request whose required fields are present. */
  function NewEntry(foodId: int, foodName: string, price: int, quantity: int,
                    hotelId: Option<int>, hotelName: Option<string>, imageUrl: Option<string>): (e: CartEntry)
    ensures KeyOf(e) == Key(foodId, hotelId) && e.quantity == quantity
  {
    CartEntry(foodId, foodName, price, quantity, hotelId, hotelName, imageUrl)
  }

  /** The required fields of `POST /add`: `foodId`, `foodName`, `price`, `quantity`, all truthy. */
  predicate AddFieldsPresent(foodId: Option<int>, foodName: Option<string>, price: Option<int>, quantity: Option<int>) {
    IntTruthy(foodId) && StrTruthy(foodName) && IntTruthy(price) && IntTruthy(quantity)
  }

  /**
   * `POST /add`: after `initCart`, a falsy required field answers 400 with
   * the cart untouched; otherwise the quantity is added to the entry with
   * the same (foodId, hotelId), or a new entry is pushed.
   */
  method Add(session: Session, foodId: Option<int>, foodName: Option<string>, price: Option<int>, quantity: Option<int>,
             hotelId: Option<int>, hotelName: Option<string>, imageUrl: Option<string>)
    returns (reply: CartReply)
    requires session.CartValid()
    modifies session`cart
    ensures session.CartValid() && session.cart.Some?
    ensures !AddFieldsPresent(foodId, foodName, price, quantity) ==>
      reply == CartError(400) && session.cart.value == Initialised(old(session.cart))
    ensures AddFieldsPresent(foodId, foodName, price, quantity) ==>
      && session.cart.value == Added(Initialised(old(session.cart)),
           NewEntry(foodId.value, foodName.value, price.value, quantity.value, hotelId, hotelName, imageUrl))
      && reply == CartOk(Count(session.cart.value))
  {
    InitCart(session);
    if !(IntTruthy(foodId) && StrTruthy(foodName) && IntTruthy(price) && IntTruthy(quantity)) {
      return CartError(400);
    }
    var cart := session.cart.value;
    var e := NewEntry(foodId.value, foodName.value, price.value, quantity.value, hotelId, hotelName, imageUrl);
    var i := FindIndex(cart, KeyOf(e));
    var next: seq<CartEntry>;
    if i > -1 {
      next := cart[i := cart[i].(quantity := cart[i].quantity + quantity.value)];
    } else {
      next := cart + [e];
    }
    assert next == Added(cart, e);
    AddedUnique(cart, e);
    session.cart := Some(next);
    reply := CartOk(Count(next));
  }

  /**
   * `PUT /update`: after `initCart`, a falsy `foodId` or a missing quantity
   * answers 400 and an absent key 404, both with the cart untouched;
   * otherwise the entry is spliced out (quantity at most 0) or its quantity set.
   */
  method Update(session: Session, foodId: Option<int>, hotelId: Option<int>, quantity: Option<int>)
    returns (reply: CartReply)
    requires session.CartValid()
    modifies session`cart
    ensures session.CartValid() && session.cart.Some?
    ensures !IntTruthy(foodId) || quantity.None? ==>
      reply == CartError(400) && session.cart.value == Initialised(old(session.cart))
    ensures IntTruthy(foodId) && quantity.Some? ==>
      var updated := Updated(Initialised(old(session.cart)), Key(foodId.value, hotelId), quantity.value);
      && (updated.None? ==> reply == CartError(404) && session.cart.value == Initialised(old(session.cart)))
      && (updated.Some? ==> session.cart.value == updated.value && reply == CartOk(Count(session.cart.value)))
  {
    InitCart(session);
    if !IntTruthy(foodId) || quantity.None? {
      return CartError(400);
    }
    var cart := session.cart.value;
    var k := Key(foodId.value, hotelId);
    var i := FindIndex(cart, k);
    if i == -1 {
      return CartError(404);
    }
    var next: seq<CartEntry>;
    if quantity.value <= 0 {
      next := cart[..i] + cart[i + 1..];
    } else {
      next := cart[i := cart[i].(quantity := quantity.value)];
    }
    assert Some(next) == Updated(cart, k, quantity.value);
    UpdatedSpec(cart, k, quantity.value);
    session.cart := Some(next);
    reply := CartOk(Count(next));
  }

  /**
   * `DELETE /remove`: after `initCart`, a falsy `foodId` answers 400;
   * otherwise every entry with the key is filtered out, an absent key included.
   */
  method Remove(session: Session, foodId: Option<int>, hotelId: Option<int>) returns (reply: CartReply)
    requires session.CartValid()
    modifies session`cart
    ensures session.CartValid() && session.cart.Some?
    ensures !IntTruthy(foodId) ==> reply == CartError(400) && session.cart.value == Initialised(old(session.cart))
    ensures IntTruthy(foodId) ==>
      && session.cart.value == Without(Initialised(old(session.cart)), Key(foodId.value, hotelId))
      && reply == CartOk(Count(session.cart.value))
  {
    InitCart(session);
    if !IntTruthy(foodId) {
      return CartError(400);
    }
    var k := Key(foodId.value, hotelId);
    RemovedSpec(session.cart.value, k);
    session.cart := Some(Without(session.cart.value, k));
    reply := CartOk(Count(session.cart.value));
  }

  /** `DELETE /clear`: the cart becomes empty, without `initCart`, and the count is 0. */
  method Clear(session: Session) returns (reply: CartReply)
    modifies session`cart
    ensures session.cart == Some([]) && session.CartValid()
    ensures reply == CartOk(0) && Count(session.cart.value) == 0
  {
    session.cart := Some([]);
    reply := CartOk(0);
  }
}
