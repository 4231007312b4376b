/**
 * The MySQL tables the handlers read and write, held in memory. Each table
 * keyed by an AUTO_INCREMENT id is a map with a counter for the next id; the
 * tables whose ids no handler uses are sequences (in insertion order) or sets.
 * Prices and amounts (DECIMAL columns) are whole numbers of the smallest unit.
 */
module Store {
  import opened Wrappers

  /** A row of `food_items`. `manualOverride` is nullable: `None` is SQL NULL. */
  datatype FoodItem = FoodItem(
    name: string,
    category: string,
    timeSlot: string,
    foodType: string,
    price: int,
    description: Option<string>,
    imageUrl: Option<string>,
    isAvailable: bool,
    manualOverride: Option<bool>)

  datatype Hotel = Hotel(name: string, hotelType: string, rating: int, isActive: bool)

  /** A row of `hotel_food`, unique per pair. */
  datatype HotelLink = HotelLink(hotelId: int, foodId: int)

  datatype User = User(name: string, email: string, phone: string, passwordHash: string)

  datatype Order = Order(
    userId: int,
    totalAmount: int,
    status: string,
    paymentMethod: string,
    deliveryAddress: string,
    notes: Option<string>,
    couponCode: Option<string>,
    discountAmount: int)

  /** A row of `order_items`; `foodId` becomes NULL when the food is deleted. */
  datatype OrderItem = OrderItem(
    orderId: int,
    itemName: string,
    price: int,
    quantity: int,
    hotelId: int,
    foodId: Option<int>)

  datatype Bill = Bill(orderId: int, billNumber: string, totalAmount: int)

  /** The single row of `restaurant_status` that the handlers read with LIMIT 1. */
  datatype RestaurantStatus = RestaurantStatus(isOpen: bool, servingTime: string)

  /** All ids of a table lie in [1, next): AUTO_INCREMENT never reuses one. */
  ghost predicate IdsBelow<T>(table: map<int, T>, next: int) {
    forall id :: id in table ==> 1 <= id < next
  }

  /** An AUTO_INCREMENT insert: the next id is fresh, and the counter moves past it. */
  lemma IdsBelowInsert<T>(table: map<int, T>, next: int, row: T)
    requires IdsBelow(table, next) && 1 <= next
    ensures next !in table
    ensures IdsBelow(table[next := row], next + 1)
  {
  }

  /** A counter that only grows keeps every id below it. */
  lemma IdsBelowGrow<T>(table: map<int, T>, next: int, next': int)
    requires IdsBelow(table, next) && next <= next'
    ensures IdsBelow(table, next')
  {
  }

  /** The UNIQUE constraint on `users.email`. */
  ghost predicate UniqueEmails(users: map<int, User>) {
    forall a, b :: a in users && b in users && users[a].email == users[b].email ==> a == b
  }

  /** The FOREIGN KEY on `bills.order_id`: every bill belongs to an existing order. */
  ghost predicate BillsReferenceOrders(bills: seq<Bill>, orders: map<int, Order>) {
    forall j :: 0 <= j < |bills| ==> bills[j].orderId in orders
  }

  /** Inserting an order, then a bill for it, keeps every bill's order in the table. */
  lemma BillsReferenceInsert(bills: seq<Bill>, orders: map<int, Order>, id: int, row: Order, bill: Bill)
    requires BillsReferenceOrders(bills, orders) && bill.orderId == id
    ensures BillsReferenceOrders(bills, orders[id := row])
    ensures BillsReferenceOrders(bills + [bill], orders[id := row])
  {
  }

  class Database {
    var foods: map<int, FoodItem>
    var nextFoodId: int
    var hotels: map<int, Hotel>
    var hotelFood: set<HotelLink>
    var users: map<int, User>
    var nextUserId: int
    var orders: map<int, Order>
    var nextOrderId: int
    var orderItems: seq<OrderItem>
    var bills: seq<Bill>
    var restaurantStatus: Option<RestaurantStatus>

    ghost predicate Valid()
      reads this
    {
      && 1 <= nextFoodId && 1 <= nextUserId && 1 <= nextOrderId
      && IdsBelow(foods, nextFoodId)
      && IdsBelow(users, nextUserId)
      && IdsBelow(orders, nextOrderId)
      && UniqueEmails(users)
      && BillsReferenceOrders(bills, orders)
    }

    /** Freshly created, empty tables. */
    constructor ()
      ensures Valid()
      ensures foods == map[] && hotels == map[] && hotelFood == {} && users == map[]
      ensures orders == map[] && orderItems == [] && bills == [] && restaurantStatus == None
    {
      foods, nextFoodId := map[], 1;
      hotels, hotelFood := map[], {};
      users, nextUserId := map[], 1;
      orders, nextOrderId := map[], 1;
      orderItems, bills := [], [];
      restaurantStatus := None;
    }
  }
}
