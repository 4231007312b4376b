/**
 * The handlers of routes/admin.js: the hard-coded credential check, the
 * `isAdmin` guard every admin route is mounted behind, the food writes
 * (save, toggle, reset-override, delete) and the restaurant status.
 */
module Admin {
  import opened Wrappers
  import opened JsValues
  import opened Store
  import opened Sessions
  import opened Availability
  import Middleware

  const ADMIN_USERNAME := "suryafoodie"
  const ADMIN_PASSWORD := "suryaadmin"

  /** What a handler answers: success, or an error status. */
  datatype Reply = Success | Failure(status: int)

  // ---------------------------------------------------------------------------
  // POST /api/admin/login and the admin guard

  /** The credential check: both fields strictly equal to the hard-coded pair. */
  predicate CredentialsMatch(username: Option<string>, password: Option<string>) {
    username == Some(ADMIN_USERNAME) && password == Some(ADMIN_PASSWORD)
  }

  /**
   * A match marks the session as admin and records the user name; anything
   * else answers 401 and leaves the session as it was. `adminId`, which the
   * guard in middleware/auth.js reads, is never set here.
   */
  method AdminLogin(session: Session, username: Option<string>, password: Option<string>) returns (reply: Reply)
    modifies session`isAdmin, session`adminUsername
    ensures reply.Success? <==> CredentialsMatch(username, password)
    ensures reply.Failure? ==> reply.status == 401
    ensures reply.Success? ==> session.isAdmin && session.adminUsername == Some(ADMIN_USERNAME)
    ensures reply.Failure? ==> session.isAdmin == old(session.isAdmin) && session.adminUsername == old(session.adminUsername)
    ensures session.adminId == old(session.adminId)
    ensures Middleware.RequireAdmin(Some(session)) == old(Middleware.RequireAdmin(Some(session)))
  {
    if username == Some(ADMIN_USERNAME) && password == Some(ADMIN_PASSWORD) {
      session.isAdmin := true;
      session.adminUsername := username;
      reply := Success;
    } else {
      reply := Failure(401);
    }
  }

  /** `requireAdmin` of routes/admin.js: `next()` iff the session's `isAdmin` is truthy, else 401. */
  function RequireAdmin(session: Option<Session>): (g: Guard)
    reads if session.Some? then {session.value} else {}
    ensures g.Next? <==> session.Some? && session.value.isAdmin
    ensures g.Reject? ==> g.status == 401 && !g.requiresLogin
  {
    if session.Some? && session.value.isAdmin then Next else Reject(401, false)
  }

  // ---------------------------------------------------------------------------
  // POST /api/admin/food

  /** The body of a save request; `id` is absent or falsy for an insert. */
  datatype FoodForm = FoodForm(
    id: Option<int>,
    name: string,
    category: string,
    foodType: string,
    price: int,
    description: Option<string>,
    imageUrl: Option<string>,
    isAvailable: bool)

  /**
   * The UPDATE branch: `time_slot` takes the form's category, the `category`
   * column and `manual_override` keep their values; an unknown id matches no row.
   */
  function SavedRow(old_row: FoodItem, form: FoodForm): (r: FoodItem)
    ensures r.category == old_row.category && r.manualOverride == old_row.manualOverride
    ensures r.timeSlot == form.category && r.name == form.name && r.isAvailable == form.isAvailable
  {
    old_row.(name := form.name, timeSlot := form.category, foodType := form.foodType, price := form.price,
             description := form.description, imageUrl := form.imageUrl, isAvailable := form.isAvailable)
  }

  /** The INSERT branch: `category` fills both columns; `manual_override` takes its default FALSE. */
  function NewRow(form: FoodForm): (r: FoodItem)
    ensures r.category == form.category && r.timeSlot == form.category
    ensures r.manualOverride == Some(false)
  {
    FoodItem(form.name, form.category, form.category, form.foodType, form.price,
             form.description, form.imageUrl, form.isAvailable, Some(false))
  }

  /** Save: updates the row named by a truthy `id`, otherwise inserts one row under a fresh id. */
  method SaveFood(db: Database, session: Session, form: FoodForm) returns (reply: Reply, newId: int)
    requires db.Valid()
    modifies db`foods, db`nextFoodId
    ensures db.Valid()
    ensures !session.isAdmin ==> reply == Failure(401) && db.foods == old(db.foods) && db.nextFoodId == old(db.nextFoodId)
    ensures session.isAdmin ==> reply == Success
    ensures session.isAdmin && IntTruthy(form.id) ==>
      && db.nextFoodId == old(db.nextFoodId)
      && db.foods == (if form.id.value in old(db.foods)
                      then old(db.foods)[form.id.value := SavedRow(old(db.foods)[form.id.value], form)]
                      else old(db.foods))
    ensures session.isAdmin && !IntTruthy(form.id) ==>
      && newId == old(db.nextFoodId) && newId !in old(db.foods)
      && db.foods == old(db.foods)[newId := NewRow(form)]
      && db.nextFoodId == newId + 1
  {
    newId := 0;
    if !session.isAdmin {
      return Failure(401), newId;
    }
    if IntTruthy(form.id) {
      var id := form.id.value;
      if id in db.foods {
        db.foods := db.foods[id := SavedRow(db.foods[id], form)];
      }
    } else {
      newId := db.nextFoodId;
      db.foods := db.foods[newId := NewRow(form)];
      db.nextFoodId := db.nextFoodId + 1;
    }
    reply := Success;
  }

  /** Saving never changes `manual_override` of an existing row, and inserts start unlocked. */
  lemma SaveKeepsOverride(rows: map<int, FoodItem>, form: FoodForm, id: int)
    requires id in rows
    ensures SavedRow(rows[id], form).manualOverride == rows[id].manualOverride
    ensures Selects(FalseOnly, NewRow(form)) && Selects(FalseOrNull, NewRow(form))
  {
  }

  // ---------------------------------------------------------------------------
  // PUT /api/admin/food/:id/toggle and /reset-override

  /** Toggle: `is_available` takes the value sent and `manual_override` becomes TRUE, in one write. */
  method ToggleFood(db: Database, session: Session, id: int, available: bool) returns (reply: Reply)
    requires db.Valid()
    modifies db`foods
    ensures db.Valid()
    ensures !session.isAdmin ==> reply == Failure(401) && db.foods == old(db.foods)
    ensures session.isAdmin ==> reply == Success && db.foods == Toggled(old(db.foods), id, available)
  {
    if !session.isAdmin {
      return Failure(401);
    }
    if id in db.foods {
      db.foods := db.foods[id := db.foods[id].(isAvailable := available, manualOverride := Some(true))];
    }
    reply := Success;
  }

  /** Reset: `manual_override` becomes FALSE; `is_available` keeps its value until the next pass. */
  method ResetOverride(db: Database, session: Session, id: int) returns (reply: Reply)
    requires db.Valid()
    modifies db`foods
    ensures db.Valid()
    ensures !session.isAdmin ==> reply == Failure(401) && db.foods == old(db.foods)
    ensures session.isAdmin ==> reply == Success && db.foods == OverrideReset(old(db.foods), id)
  {
    if !session.isAdmin {
      return Failure(401);
    }
    if id in db.foods {
      db.foods := db.foods[id := db.foods[id].(manualOverride := Some(false))];
    }
    reply := Success;
  }

  /** A toggled row is excluded by both evaluators, so no pass writes it. */
  lemma ToggledRowUnselected(rows: map<int, FoodItem>, id: int, available: bool, filter: Filter)
    requires id in rows
    ensures id !in Selected(Toggled(rows, id, available), filter)
  {
  }

  /** After a reset the row is selected again by both evaluators. */
  lemma ResetRowSelected(rows: map<int, FoodItem>, id: int, filter: Filter)
    requires id in rows
    ensures id in Selected(OverrideReset(rows, id), filter)
  {
  }

  // ---------------------------------------------------------------------------
  // DELETE /api/admin/food/:id

  /** Which of the three statements of a delete throws, if any. */
  datatype DeleteFault = NoDeleteFault | FailsAtStep(step: nat)

  /** `DELETE FROM hotel_food WHERE food_id = ?`. */
  function Unlinked(links: set<HotelLink>, id: int): (r: set<HotelLink>)
    ensures r <= links
    ensures forall link :: link in r <==> link in links && link.foodId != id
  {
    set link | link in links && link.foodId != id
  }

  /** `UPDATE order_items SET food_id = NULL WHERE food_id = ?`: rows kept, the reference cleared. */
  function Detached(items: seq<OrderItem>, id: int): (r: seq<OrderItem>)
    ensures |r| == |items|
    ensures forall i :: 0 <= i < |r| ==>
      r[i] == (if items[i].foodId == Some(id) then items[i].(foodId := None) else items[i])
  {
    if items == [] then []
    else [if items[0].foodId == Some(id) then items[0].(foodId := None) else items[0]] + Detached(items[1..], id)
  }

  /**
   * The three statements run in order outside any transaction: a statement
   * that throws answers 500 and keeps what the earlier ones wrote.
   */
  method DeleteFood(db: Database, session: Session, id: int, fault: DeleteFault) returns (reply: Reply)
    requires db.Valid()
    modifies db`foods, db`hotelFood, db`orderItems
    ensures db.Valid()
    ensures !session.isAdmin ==> reply == Failure(401)
    ensures var ran := if !session.isAdmin then 0 else if fault.FailsAtStep? then fault.step else 3;
      && (db.hotelFood == if ran >= 1 then Unlinked(old(db.hotelFood), id) else old(db.hotelFood))
      && (db.orderItems == if ran >= 2 then Detached(old(db.orderItems), id) else old(db.orderItems))
      && (db.foods == if ran >= 3 then old(db.foods) - {id} else old(db.foods))
    ensures session.isAdmin ==> (reply == Success <==> !(fault.FailsAtStep? && fault.step < 3))
    ensures reply.Failure? && session.isAdmin ==> reply.status == 500
  {
    if !session.isAdmin {
      return Failure(401);
    }
    if fault.FailsAtStep? && fault.step == 0 {
      return Failure(500);
    }
    db.hotelFood := Unlinked(db.hotelFood, id);
    if fault.FailsAtStep? && fault.step == 1 {
      return Failure(500);
    }
    db.orderItems := Detached(db.orderItems, id);
    if fault.FailsAtStep? && fault.step == 2 {
      return Failure(500);
    }
    db.foods := db.foods - {id};
    reply := Success;
  }

  /**
   * After a complete delete nothing refers to the item any more, and the
   * order history keeps every row with everything but the food reference.
   */
  lemma DeleteLeavesNoReference(links: set<HotelLink>, items: seq<OrderItem>, id: int)
    ensures forall link :: link in Unlinked(links, id) ==> link.foodId != id
    ensures forall i :: 0 <= i < |Detached(items, id)| ==> Detached(items, id)[i].foodId != Some(id)
    ensures forall i :: 0 <= i < |items| ==>
      Detached(items, id)[i] == items[i].(foodId := Detached(items, id)[i].foodId)
  {
  }

  // ---------------------------------------------------------------------------
  // GET and PUT /api/admin/restaurant-status

  const DEFAULT_STATUS := RestaurantStatus(true, "breakfast")

  /** The stored row, or `is_open` TRUE and 'breakfast' when the table is empty. */
  function GetRestaurantStatus(stored: Option<RestaurantStatus>): (r: RestaurantStatus)
    ensures stored.Some? ==> r == stored.value
    ensures stored.None? ==> r.isOpen && r.servingTime == "breakfast"
  {
    stored.GetOr(DEFAULT_STATUS)
  }

  /** The columns the partial update pushes into its SET list. */
  datatype StatusField = IsOpen | ServingTime

  /** The stored row with each supplied field replaced. */
  function StatusUpdated(row: RestaurantStatus, isOpen: Option<bool>, servingTime: Option<string>): (r: RestaurantStatus)
    ensures r.isOpen == isOpen.GetOr(row.isOpen)
    ensures r.servingTime == servingTime.GetOr(row.servingTime)
  {
    RestaurantStatus(isOpen.GetOr(row.isOpen), servingTime.GetOr(row.servingTime))
  }

  /** The row inserted into an empty table: `is_open` defaults to TRUE, a falsy time to 'breakfast'. */
  function StatusInserted(isOpen: Option<bool>, servingTime: Option<string>): (r: RestaurantStatus)
    ensures r.isOpen == isOpen.GetOr(true)
    ensures r.servingTime == StrOr(servingTime, "breakfast")
  {
    RestaurantStatus(isOpen.GetOr(true), StrOr(servingTime, "breakfast"))
  }

  /**
   * With a stored row, one SET entry per supplied field (an absent field is
   * `undefined`); with none supplied the statement reads `SET  WHERE`, which
   * MySQL refuses, so the answer is 500 and nothing changes. With no row,
   * one row is inserted with defaults.
   */
  method UpdateRestaurantStatus(db: Database, session: Session, isOpen: Option<bool>, servingTime: Option<string>)
    returns (reply: Reply, updates: seq<StatusField>)
    requires db.Valid()
    modifies db`restaurantStatus
    ensures db.Valid()
    ensures !session.isAdmin ==> reply == Failure(401) && db.restaurantStatus == old(db.restaurantStatus)
    ensures session.isAdmin && old(db.restaurantStatus).Some? ==>
      && |updates| == (if isOpen.Some? then 1 else 0) + (if servingTime.Some? then 1 else 0)
      && (updates == [] ==> reply == Failure(500) && db.restaurantStatus == old(db.restaurantStatus))
      && (updates != [] ==>
            reply == Success && db.restaurantStatus == Some(StatusUpdated(old(db.restaurantStatus).value, isOpen, servingTime)))
    ensures session.isAdmin && old(db.restaurantStatus).None? ==>
      reply == Success && db.restaurantStatus == Some(StatusInserted(isOpen, servingTime))
  {
    updates := [];
    if !session.isAdmin {
      return Failure(401), updates;
    }
    if db.restaurantStatus.Some? {
      var row := db.restaurantStatus.value;
      if isOpen.Some? {
        updates := updates + [IsOpen];
        row := row.(isOpen := isOpen.value);
      }
      if servingTime.Some? {
        updates := updates + [ServingTime];
        row := row.(servingTime := servingTime.value);
      }
      if updates == [] {
        return Failure(500), updates;
      }
      db.restaurantStatus := Some(row);
    } else {
      db.restaurantStatus := Some(RestaurantStatus(
        if isOpen.Some? then isOpen.value else true,
        if StrTruthy(servingTime) then servingTime.value else "breakfast"));
    }
    reply := Success;
  }

  /**
   * Reading back after a successful write: supplied fields are what was
   * sent, except that an empty serving time sent to an empty table reads as
   * 'breakfast', while sent to a stored row it is stored as is.
   */
  lemma StatusReadBack(stored: Option<RestaurantStatus>, isOpen: Option<bool>, servingTime: Option<string>)
    ensures stored.None? ==>
      && GetRestaurantStatus(Some(StatusInserted(isOpen, servingTime))).isOpen == isOpen.GetOr(GetRestaurantStatus(stored).isOpen)
      && (StrTruthy(servingTime) ==> GetRestaurantStatus(Some(StatusInserted(isOpen, servingTime))).servingTime == servingTime.value)
      && (servingTime == Some("") ==> GetRestaurantStatus(Some(StatusInserted(isOpen, servingTime))).servingTime == "breakfast")
    ensures stored.Some? ==>
      && GetRestaurantStatus(Some(StatusUpdated(stored.value, isOpen, servingTime))).isOpen == isOpen.GetOr(stored.value.isOpen)
      && (servingTime.Some? ==> GetRestaurantStatus(Some(StatusUpdated(stored.value, isOpen, servingTime))).servingTime == servingTime.value)
  {
  }
}
