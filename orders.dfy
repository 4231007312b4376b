/**
 * The handlers of routes/orders.js: order placement as one transaction
 * (order row, one row per item, bill row; all or nothing), and the
 * ownership checks of the order-details and order-items lookups.
 */
module Orders {
  import opened Wrappers
  import opened JsValues
  import opened Store
  import opened Sessions
  import opened Decimal
  import Middleware

  // ---------------------------------------------------------------------------
  // Derived values

  /** `landmark ? `${address}, Near ${landmark}` : address`. */
  function DeliveryAddress(address: string, landmark: Option<string>): (r: string)
    ensures !StrTruthy(landmark) ==> r == address
    ensures StrTruthy(landmark) ==>
      && |r| == |address| + 7 + |landmark.value|
      && r[..|address|] == address && r[|address|..|address| + 7] == ", Near " && r[|address| + 7..] == landmark.value
  {
    if StrTruthy(landmark) then address + ", Near " + landmark.value else address
  }

  /** `BILL-${Date.now()}-${orderId}`. */
  function BillNumber(timestamp: nat, orderId: nat): string {
    "BILL-" + ToDecimal(timestamp) + "-" + ToDecimal(orderId)
  }

  /** A bill number is "BILL-", the millisecond's digits, a dash and the order id's digits. */
  lemma BillNumberShape(timestamp: nat, orderId: nat)
    ensures var r := BillNumber(timestamp, orderId);
      && |r| > 5 && r[..5] == "BILL-"
      && r[5..] == ToDecimal(timestamp) + "-" + ToDecimal(orderId)
      && AllDigits(ToDecimal(timestamp)) && AllDigits(ToDecimal(orderId))
  {
    var tail := ToDecimal(timestamp) + "-" + ToDecimal(orderId);
    assert BillNumber(timestamp, orderId) == "BILL-" + tail;
  }

  /** A dash where the other string still holds a digit makes the two differ. */
  lemma DashBeforeDigit(x1: string, y1: string, x2: string, y2: string)
    requires AllDigits(x2) && |x1| < |x2|
    ensures x1 + "-" + y1 != x2 + "-" + y2
  {
    assert (x1 + "-" + y1)[|x1|] == '-';
    assert (x2 + "-" + y2)[|x1|] == x2[|x1|];
  }

  /** A numeral ends at the first dash, so `x-y` splits uniquely when `x` is all digits. */
  lemma SplitAtDash(x1: string, y1: string, x2: string, y2: string)
    requires AllDigits(x1) && AllDigits(x2)
    requires x1 + "-" + y1 == x2 + "-" + y2
    ensures x1 == x2 && y1 == y2
  {
    var s := x1 + "-" + y1;
    if |x1| < |x2| {
      DashBeforeDigit(x1, y1, x2, y2);
      assert false;
    } else if |x2| < |x1| {
      DashBeforeDigit(x2, y2, x1, y1);
      assert false;
    }
    assert s[..|x1|] == x1 && (x2 + "-" + y2)[..|x2|] == x2;
    assert s[|x1| + 1..] == y1 && (x2 + "-" + y2)[|x2| + 1..] == y2;
  }

  /**
   * Bill numbers determine both the millisecond and the order id, so two
   * orders placed in the same millisecond still get different bill numbers.
   */
  lemma BillNumberInjective(t1: nat, a: nat, t2: nat, b: nat)
    requires BillNumber(t1, a) == BillNumber(t2, b)
    ensures t1 == t2 && a == b
  {
    var r1 := ToDecimal(t1) + "-" + ToDecimal(a);
    var r2 := ToDecimal(t2) + "-" + ToDecimal(b);
    assert BillNumber(t1, a) == "BILL-" + r1;
    assert BillNumber(t2, b) == "BILL-" + r2;
    assert ("BILL-" + r1)[5..] == r1 && ("BILL-" + r2)[5..] == r2;
    SplitAtDash(ToDecimal(t1), ToDecimal(a), ToDecimal(t2), ToDecimal(b));
    ToDecimalInjective(t1, t2);
    ToDecimalInjective(a, b);
  }

  // ---------------------------------------------------------------------------
  // POST /api/orders

  /** One element of the request's `items`. */
  datatype ItemRequest = ItemRequest(foodName: Option<string>, price: int, quantity: int,
                                     hotelId: Option<int>, foodId: Option<int>)

  /** The fields of the request body the handler reads. */
  datatype OrderRequest = OrderRequest(
    items: Option<seq<ItemRequest>>,
    totalAmount: int,
    deliveryAddress: string,
    landmark: Option<string>,
    couponCode: Option<string>,
    discountAmount: Option<int>,
    paymentMethod: Option<string>,
    notes: Option<string>)

  /** Which statement of the transaction throws, if any; `ItemFails(k)` is the k-th item insert. */
  datatype OrderFault = NoOrderFault | OrderInsertFails | ItemFails(k: nat) | BillInsertFails | CommitFails

  /** Whether the fault is reached for a request with `n` items. */
  predicate Throws(fault: OrderFault, n: nat) {
    match fault
    case NoOrderFault => false
    case ItemFails(k) => k < n
    case _ => true
  }

  /** The order row: status 'Order Confirmed' and the defaults for falsy fields. */
  function OrderRow(userId: int, req: OrderRequest): Order {
    Order(userId, req.totalAmount, "Order Confirmed", StrOr(req.paymentMethod, "Cash on Delivery"),
          DeliveryAddress(req.deliveryAddress, req.landmark), StrOrNull(req.notes), StrOrNull(req.couponCode),
          IntOr(req.discountAmount, 0))
  }

  /**
   * A new order belongs to the session user, is confirmed at once and
   * carries the requested total; each falsy optional field takes its default.
   */
  lemma OrderRowDefaults(userId: int, req: OrderRequest)
    ensures var o := OrderRow(userId, req);
      && o.userId == userId && o.status == "Order Confirmed" && o.totalAmount == req.totalAmount
      && (StrTruthy(req.paymentMethod) ==> o.paymentMethod == req.paymentMethod.value)
      && (!StrTruthy(req.paymentMethod) ==> o.paymentMethod == "Cash on Delivery")
      && (StrTruthy(req.landmark) ==> o.deliveryAddress == req.deliveryAddress + ", Near " + req.landmark.value)
      && (!StrTruthy(req.landmark) ==> o.deliveryAddress == req.deliveryAddress)
      && (o.notes.Some? <==> StrTruthy(req.notes)) && (o.couponCode.Some? <==> StrTruthy(req.couponCode))
      && (IntTruthy(req.discountAmount) ==> o.discountAmount == req.discountAmount.value)
      && (!IntTruthy(req.discountAmount) ==> o.discountAmount == 0)
  {
  }

  /** The `order_items` row for one requested item: name 'Food Item' and hotel 1 by default. */
  function ItemRow(orderId: int, item: ItemRequest): OrderItem {
    OrderItem(orderId, StrOr(item.foodName, "Food Item"), item.price, item.quantity, IntOr(item.hotelId, 1), item.foodId)
  }

  /** An item row keeps the requested price, quantity and food, with 'Food Item' and hotel 1 for falsy fields. */
  lemma ItemRowDefaults(orderId: int, item: ItemRequest)
    ensures var r := ItemRow(orderId, item);
      && r.orderId == orderId && r.price == item.price && r.quantity == item.quantity && r.foodId == item.foodId
      && (StrTruthy(item.foodName) ==> r.itemName == item.foodName.value)
      && (!StrTruthy(item.foodName) ==> r.itemName == "Food Item")
      && (IntTruthy(item.hotelId) ==> r.hotelId == item.hotelId.value)
      && (!IntTruthy(item.hotelId) ==> r.hotelId == 1)
  {
  }

  /** The rows the item loop inserts, in request order. */
  function ItemRows(orderId: int, items: seq<ItemRequest>): (rows: seq<OrderItem>)
    ensures |rows| == |items|
    ensures forall i :: 0 <= i < |items| ==> rows[i] == ItemRow(orderId, items[i])
  {
    if items == [] then [] else [ItemRow(orderId, items[0])] + ItemRows(orderId, items[1..])
  }

  datatype OrderReply = Placed(orderId: int, billNumber: string, totalAmount: int) | Refused(status: int)

  /**
   * Placement: `requireAuth` first (401), then 400 for a missing or empty
   * `items` before any transaction starts. Inside the transaction the
   * order, its items and its bill are inserted and committed; a statement
   * that throws rolls every table back (the AUTO_INCREMENT counter keeps
   * any id it handed out) and answers 500.
   */
  method PlaceOrder(db: Database, session: Session, req: OrderRequest, timestamp: nat, fault: OrderFault)
    returns (reply: OrderReply)
    requires db.Valid()
    modifies db`orders, db`nextOrderId, db`orderItems, db`bills
    ensures db.Valid()
    ensures db.nextOrderId >= old(db.nextOrderId)
    ensures reply.Refused? ==>
      db.orders == old(db.orders) && db.orderItems == old(db.orderItems) && db.bills == old(db.bills)
    ensures Middleware.RequireAuth(Some(session)).Reject? ==> reply == Refused(401) && db.nextOrderId == old(db.nextOrderId)
    ensures Middleware.RequireAuth(Some(session)).Next? && (req.items.None? || req.items.value == []) ==>
      reply == Refused(400) && db.nextOrderId == old(db.nextOrderId)
    ensures Middleware.RequireAuth(Some(session)).Next? && req.items.Some? && req.items.value != [] ==>
      if Throws(fault, |req.items.value|) then reply == Refused(500)
      else
        var id := old(db.nextOrderId);
        && reply == Placed(id, BillNumber(timestamp, id), req.totalAmount)
        && id !in old(db.orders)
        && db.orders == old(db.orders)[id := OrderRow(session.userId.value, req)]
        && db.orderItems == old(db.orderItems) + ItemRows(id, req.items.value)
        && db.bills == old(db.bills) + [Bill(id, BillNumber(timestamp, id), req.totalAmount)]
  {
    if !(IntTruthy(session.userId)) {
      return Refused(401);
    }
    if req.items.None? || |req.items.value| == 0 {
      return Refused(400);
    }
    reply := Transaction(db, session.userId.value, req, req.items.value, timestamp, fault);
  }

  /**
   * From `beginTransaction` to `commit`: the order insert, the item loop and
   * the bill insert. When any of them or the commit throws, the catch block
   * rolls every table back and answers 500; the counter keeps the id it
   * handed out.
   */
  method Transaction(db: Database, userId: int, req: OrderRequest, items: seq<ItemRequest>, timestamp: nat,
                     fault: OrderFault)
    returns (reply: OrderReply)
    requires db.Valid()
    modifies db`orders, db`nextOrderId, db`orderItems, db`bills
    ensures db.Valid()
    ensures db.nextOrderId >= old(db.nextOrderId)
    ensures Throws(fault, |items|) ==>
      && reply == Refused(500)
      && db.orders == old(db.orders) && db.orderItems == old(db.orderItems) && db.bills == old(db.bills)
    ensures !Throws(fault, |items|) ==>
      var id := old(db.nextOrderId);
      && reply == Placed(id, BillNumber(timestamp, id), req.totalAmount)
      && id !in old(db.orders)
      && db.orders == old(db.orders)[id := OrderRow(userId, req)]
      && db.orderItems == old(db.orderItems) + ItemRows(id, items)
      && db.bills == old(db.bills) + [Bill(id, BillNumber(timestamp, id), req.totalAmount)]
  {
    // beginTransaction: what a rollback restores
    var savedOrders, savedItems, savedBills := db.orders, db.orderItems, db.bills;

    if fault.OrderInsertFails? {
      return Refused(500);
    }
    var orderId := db.nextOrderId;
    IdsBelowInsert(db.orders, orderId, OrderRow(userId, req));
    IdsBelowGrow(db.orders, orderId, orderId + 1);
    BillsReferenceInsert(db.bills, db.orders, orderId, OrderRow(userId, req), Bill(orderId, BillNumber(timestamp, orderId), req.totalAmount));
    db.orders := db.orders[orderId := OrderRow(userId, req)];
    db.nextOrderId := db.nextOrderId + 1;

    var itemsInserted := InsertItems(db, orderId, items, fault);
    var billNumber := BillNumber(timestamp, orderId);
    if itemsInserted && !fault.BillInsertFails? {
      db.bills := db.bills + [Bill(orderId, billNumber, req.totalAmount)];
    }

    // commit, or the catch block's rollback when any statement threw
    if !itemsInserted || fault.BillInsertFails? || fault.CommitFails? {
      db.orders, db.orderItems, db.bills := savedOrders, savedItems, savedBills;
      return Refused(500);
    }
    reply := Placed(orderId, billNumber, req.totalAmount);
  }

  /**
   * The `for (const item of items)` loop inside the transaction: one
   * `order_items` insert per item, in request order, until an insert throws.
   * The rows inserted before the throw stay until the caller rolls back.
   */
  method InsertItems(db: Database, orderId: int, items: seq<ItemRequest>, fault: OrderFault)
    returns (inserted: bool)
    modifies db`orderItems
    ensures inserted <==> !(fault.ItemFails? && fault.k < |items|)
    ensures inserted ==> db.orderItems == old(db.orderItems) + ItemRows(orderId, items)
    ensures !inserted ==> db.orderItems == old(db.orderItems) + ItemRows(orderId, items[..fault.k])
  {
    var i := 0;
    assert items[..0] == [];
    while i < |items|
      invariant 0 <= i <= |items|
      invariant db.orderItems == old(db.orderItems) + ItemRows(orderId, items[..i])
      invariant fault.ItemFails? ==> fault.k >= i
    {
      if fault.ItemFails? && fault.k == i {
        return false;
      }
      db.orderItems := db.orderItems + [ItemRow(orderId, items[i])];
      ItemRowsSnoc(orderId, items, i);
      i := i + 1;
    }
    assert items[..|items|] == items;
    inserted := true;
  }

  lemma ItemRowsSnoc(orderId: int, items: seq<ItemRequest>, i: nat)
    requires i < |items|
    ensures ItemRows(orderId, items[..i + 1]) == ItemRows(orderId, items[..i]) + [ItemRow(orderId, items[i])]
  {
    var a := ItemRows(orderId, items[..i + 1]);
    var b := ItemRows(orderId, items[..i]) + [ItemRow(orderId, items[i])];
    assert |a| == |b|;
    forall j | 0 <= j < |a| ensures a[j] == b[j] {
      assert items[..i + 1][j] == items[j];
      if j < i {
        assert items[..i][j] == items[j];
      }
    }
  }

  /**
   * The bill a placement inserts is the only bill of the fresh order, so the
   * details route's LEFT JOIN reports exactly its number. Bills of earlier
   * orders cannot carry the fresh id, because they reference existing orders.
   */
  lemma PlacedBillFound(bills: seq<Bill>, orders: map<int, Order>, id: int, billNumber: string, total: int)
    requires BillsReferenceOrders(bills, orders) && id !in orders
    ensures var placed := bills + [Bill(id, billNumber, total)];
      && (forall j :: 0 <= j < |placed| && placed[j].orderId == id ==> j == |bills|)
      && FirstBill(placed, id) == Some(billNumber)
  {
    var placed := bills + [Bill(id, billNumber, total)];
    assert placed[|bills|].orderId == id;
  }

  // ---------------------------------------------------------------------------
  // GET /api/orders/:id and GET /api/orders/:orderId/items

  /** The order-details answer: the order joined with its owner and first bill, plus its items. */
  datatype OrderDetails = OrderDetails(order: Order, owner: User, billNumber: Option<string>, items: seq<OrderItem>)

  datatype DetailsReply = Details(details: OrderDetails) | DetailsRefused(status: int)

  /** The items of an order, in table order. */
  function ItemsOf(items: seq<OrderItem>, orderId: int): (r: seq<OrderItem>)
    ensures forall it :: it in r <==> it in items && it.orderId == orderId
  {
    if items == [] then []
    else (if items[0].orderId == orderId then [items[0]] else []) + ItemsOf(items[1..], orderId)
  }

  /**
   * Rows carry no id of their own, so an item listed twice is two equal
   * rows: each row of the order is selected as many times as it occurs in
   * the table, and rows of other orders not at all.
   */
  lemma {:induction false} ItemsOfCounts(items: seq<OrderItem>, orderId: int, it: OrderItem)
    ensures multiset(ItemsOf(items, orderId))[it] == if it.orderId == orderId then multiset(items)[it] else 0
  {
    if items != [] {
      assert items == [items[0]] + items[1..];
      ItemsOfCounts(items[1..], orderId, it);
    }
  }

  /** The rows of an order keep their table order: selecting from two runs of rows selects from each in turn. */
  lemma {:induction false} ItemsOfAppend(a: seq<OrderItem>, b: seq<OrderItem>, orderId: int)
    ensures ItemsOf(a + b, orderId) == ItemsOf(a, orderId) + ItemsOf(b, orderId)
  {
    if a == [] {
      assert a + b == b;
    } else {
      assert (a + b)[0] == a[0] && (a + b)[1..] == a[1..] + b;
      ItemsOfAppend(a[1..], b, orderId);
    }
  }

  /** The bill number of the first bill of an order, if any (the LEFT JOIN on bills). */
  function FirstBill(bills: seq<Bill>, orderId: int): (r: Option<string>)
    ensures r.None? <==> forall j :: 0 <= j < |bills| ==> bills[j].orderId != orderId
    ensures r.Some? ==> exists j :: 0 <= j < |bills| && bills[j].orderId == orderId && bills[j].billNumber == r.value
  {
    if bills == [] then None
    else if bills[0].orderId == orderId then Some(bills[0].billNumber)
    else
      var r := FirstBill(bills[1..], orderId);
      if r.Some? then
        assert exists j :: 0 <= j < |bills[1..]| && bills[1..][j].orderId == orderId && bills[1..][j].billNumber == r.value;
        var j :| 0 <= j < |bills[1..]| && bills[1..][j].orderId == orderId && bills[1..][j].billNumber == r.value;
        assert bills[j + 1] == bills[1..][j];
        r
      else
        assert forall j :: 1 <= j < |bills| ==> bills[j] == bills[1..][j - 1];
        r
  }

  /**
   * `GET /:id`: 401 without a session user; 404 unless the order exists,
   * belongs to the session user and that user's row exists (inner join on
   * users); otherwise the order, its owner, its bill number and its items.
   */
  function GetOrderDetails(session: Session, orders: map<int, Order>, users: map<int, User>, bills: seq<Bill>,
                           items: seq<OrderItem>, orderId: int): (r: DetailsReply)
    reads session
    ensures r == DetailsRefused(401) <==> !IntTruthy(session.userId)
    ensures r.Details? <==>
      IntTruthy(session.userId) && orderId in orders && orders[orderId].userId == session.userId.value
      && session.userId.value in users
    ensures r.DetailsRefused? ==> r.status == 401 || r.status == 404
    ensures r.Details? ==>
      && r.details.order == orders[orderId] && r.details.owner == users[session.userId.value]
      && r.details.items == ItemsOf(items, orderId) && r.details.billNumber == FirstBill(bills, orderId)
  {
    if !IntTruthy(session.userId) then DetailsRefused(401)
    else
      var userId := session.userId.value;
      if orderId in orders && orders[orderId].userId == userId && orders[orderId].userId in users then
        Details(OrderDetails(orders[orderId], users[orders[orderId].userId], FirstBill(bills, orderId), ItemsOf(items, orderId)))
      else DetailsRefused(404)
  }

  /** The columns `GET /:orderId/items` returns per item. */
  datatype ItemLine = ItemLine(itemName: string, price: int, quantity: int)

  datatype ItemsReply = Lines(lines: seq<ItemLine>) | LinesRefused(status: int)

  function LinesOf(items: seq<OrderItem>): (r: seq<ItemLine>)
    ensures |r| == |items|
    ensures forall i :: 0 <= i < |items| ==> r[i] == ItemLine(items[i].itemName, items[i].price, items[i].quantity)
  {
    if items == [] then [] else [ItemLine(items[0].itemName, items[0].price, items[0].quantity)] + LinesOf(items[1..])
  }

  /**
   * `GET /:orderId/items`: 401 without a session user; 404 unless the order
   * exists and belongs to the session user (no join on users here);
   * otherwise the name, price and quantity of each of its items.
   */
  function GetOrderItems(session: Session, orders: map<int, Order>, items: seq<OrderItem>, orderId: int)
    : (r: ItemsReply)
    reads session
    ensures r == LinesRefused(401) <==> !IntTruthy(session.userId)
    ensures r.Lines? <==>
      IntTruthy(session.userId) && orderId in orders && orders[orderId].userId == session.userId.value
    ensures r.LinesRefused? ==> r.status == 401 || r.status == 404
    ensures r.Lines? ==> r.lines == LinesOf(ItemsOf(items, orderId))
  {
    if !IntTruthy(session.userId) then LinesRefused(401)
    else if orderId in orders && orders[orderId].userId == session.userId.value then
      Lines(LinesOf(ItemsOf(items, orderId)))
    else LinesRefused(404)
  }

  /**
   * Whoever asks, an answer with content is about an order of the asking
   * user: two users never both see the same order.
   */
  lemma OwnerOnly(s1: Session, s2: Session, orders: map<int, Order>, users: map<int, User>, bills: seq<Bill>,
                  items: seq<OrderItem>, orderId: int)
    requires GetOrderItems(s1, orders, items, orderId).Lines? || GetOrderDetails(s1, orders, users, bills, items, orderId).Details?
    requires GetOrderItems(s2, orders, items, orderId).Lines? || GetOrderDetails(s2, orders, users, bills, items, orderId).Details?
    ensures s1.userId == s2.userId
  {
  }
}
