# foodie-delight backend, modelled in Dafny

This project models the request-handling core of the foodie-delight food
ordering backend (Express on MySQL). The model covers these parts:

- **The availability evaluator.** It decides, from a fixed table of serving
  windows, whether each menu item is on offer at the current minute. It
  leaves alone items an administrator has locked with `manual_override`.
  There are two copies: the background pass in `server.js` and the
  `POST /api/food/update-availability` route.
- **The admin writes.** Toggle, reset-override, save, delete and the
  restaurant status. These are the only writers of `manual_override`.
- **The session cart.** A list of entries keyed by `(foodId, hotelId)`.
- **Order placement.** One transaction that writes an order, its items and
  its bill, or nothing at all.
- **The smaller rules.** Ownership checks on orders, signup and login, the
  session guards, and the listing query builders for foods and hotels.

MySQL tables are fields of one `Store.Database` object. Keyed tables are
`map`s, and `order_items` and `bills` are `seq`s. The AUTO_INCREMENT
counters are explicit, and `Database.Valid()` states the facts the
handlers rely on:

- ids lie below their counter;
- emails are unique;
- every bill belongs to an existing order (the FOREIGN KEY on
  `bills.order_id`, config/database.js:165).

The express session and `req.user` are the objects `Sessions.Session`
and `Sessions.Request`. Handlers become methods that change these objects
in place. Their `ensures` clauses relate the new state to a specification
function of the old one, and the lemmas prove what the code promises
about those functions.

The following are inputs to the model, not computed by it:

- the wall clock (hours and minutes, and `Date.now()` as a number);
- bcrypt (a hash function and a compare function);
- store failures (a fault parameter naming the statement that throws).

The fault parameter is free: it is not tied to the FOREIGN KEYs on
`order_items.hotel_id` and `order_items.food_id` (config/database.js:153-154).
An item naming a missing food or hotel makes the code's insert throw every
time, while the model also allows that insert to succeed. The proved
properties hold for every fault, so they cover the code's behaviour too.

### Behaviour of the code worth knowing

- **The two evaluator copies select different rows.** The background pass
  selects rows whose `manual_override` is FALSE or NULL (server.js:159).
  The route selects only FALSE (routes/food.js:78). The model keeps both
  filters (`Availability.Filter`). `Availability.CopiesAgree` proves the
  copies agree on a row exactly when its override is not NULL, or when
  evaluating it would not change it.
- **`updatedCount` includes skipped rows.** The route's `updatedCount` is
  the number of rows read, so rows with an unknown slot are counted as
  well (routes/food.js:89).
- **The middleware admin guard never lets anyone through.** `requireAdmin`
  in middleware/auth.js tests `session.adminId`, and no handler ever
  assigns it. The admin routes use their own guard on `isAdmin`.
- **A status update with no fields fails.** When a status row exists and
  neither field is sent, the statement becomes `UPDATE restaurant_status
  SET  WHERE id = ?`, which MySQL rejects, so the route answers 500.

## Model

| member | source | states |
|---|---|---|
| TimeSlots.CurrentMinute | server.js:147-148 | the minute of day lies in [0, 1440) and gives back the hour and minute it was built from |
| TimeSlots.SlotTable | server.js:150-156 | the decision for each of the five slots is its inclusive window (breakfast 360-690, lunch 720-930, evening 960-1140, dinner 1140-1380, beverage 0-1440), and no other name has a window |
| TimeSlots.BeverageAlways | server.js:155 | a beverage is available at every minute of the day |
| TimeSlots.EveningDinnerOverlap | server.js:153-154 | at 19:00 both evening and dinner items are available; at the minutes either side, only one of them is |
| TimeSlots.GapsOnlyBeverage | server.js:150-156 | in the gaps between meal windows, and at night, beverage is the only slot that decides available |
| TimeSlots.MealSlotToggles | server.js:166 | every meal slot is available at some minute of the day and unavailable at another |
| TimeSlots.UnknownSlotSkipped | server.js:163-164 | names outside the table, the empty name included, get no decision, so the row is skipped |
| Availability.Selected | server.js:158-160 | the read returns only existing rows and never a row whose override is TRUE |
| Availability.Evaluated | server.js:163-170 | visiting a row changes at most `is_available`; a known slot gets its window decision and an unknown slot is left as it was |
| Availability.PassResult | server.js:162-171 | a pass keeps the table's keys, leaves rows it did not visit unchanged, and changes nothing but `is_available` |
| Availability.SelectRows | server.js:158-160 | the SELECT yields every selected row exactly once, each with the slot stored for it |
| Availability.StopIndexBounds | server.js:162-178 | the loop stops early exactly when the UPDATE of a fetched row with a known slot throws |
| Availability.EvaluateRows | server.js:162-171 | the write loop leaves the table as the specification pass over the prefix of rows it completed |
| Availability.PassStep | server.js:166-170 | visiting a row with a known slot writes its window decision over the stored value |
| Availability.PassSkip | server.js:163-164 | visiting a row with an unknown slot changes nothing |
| Availability.DistinctIdsCount | routes/food.js:89 | a read without repeated ids has as many rows as ids |
| Availability.OverriddenRowsFrozen | server.js:158-160 | however far a pass gets, rows whose override is TRUE are unchanged |
| Availability.FullPassDecides | server.js:162-171 | after a complete pass, a selected row with a known slot holds its window decision, and any other row is unchanged |
| Availability.PassKeepsSelection | server.js:167-170 | a pass does not change which rows the next pass selects |
| Availability.CompletePassRepairs | server.js:176-178 | after a pass cut short by a failing write, a complete pass leaves the table as if only that complete pass had run |
| Availability.FullPassIdempotent | server.js:166-170 | a second complete pass at the same minute changes nothing |
| Availability.CopiesAgree | routes/food.js:78 | the two copies agree on a row iff its override is not NULL or evaluating it would not change it; on a table with no NULL overrides they agree everywhere |
| Availability.NullOverrideOnlyInBackground | server.js:159 | a row with a NULL override is evaluated by the background pass and left alone by the route |
| Availability.Toggled | routes/admin.js:126-129 | a toggle sets `is_available` and locks the override on that row only |
| Availability.OverrideReset | routes/admin.js:142 | a reset clears the override on that row only and keeps `is_available` |
| Availability.ToggleHonoured | routes/admin.js:126-129 | after a toggle, no pass of either copy, complete or not, moves the toggled value |
| Availability.ResetHandsBack | routes/admin.js:142 | a reset keeps the stored value, and the next complete pass of either copy gives the row its window decision again |
| Availability.LunchOverrideScenario | routes/admin.js:120-148 | a lunch item at 13:20 goes through evaluate, toggle off, evaluate, reset, evaluate, and is on, off, off, off, on |
| AutoAvailability.UpdateAvailability | server.js:143-179 | a failing read changes nothing; otherwise the rows written are a prefix of the FALSE-or-NULL rows, cut at the first failing write; the error is logged iff the pass stopped early; without faults the result is the complete pass |
| AutoAvailability.BackgroundPassFreezesOverrides | server.js:158-178 | whatever fault ends a background pass, locked rows are untouched, and slots and overrides never change |
| SqlText.PlaceholdersJoin | routes/food.js:32 | joining conditions with a separator that has no `?` keeps the total placeholder count |
| SqlText.WrappedPlaceholders | routes/food.js:12-35 | a fixed prefix and suffix without `?` add no placeholders to the clause between them |
| FoodRoutes.FoodParams | routes/food.js:16-29 | one parameter per condition |
| FoodRoutes.FoodConditionsFilters | routes/food.js:16-29 | each supplied filter adds exactly one condition (a truthy time slot, a type other than 'all', a truthy category) and no other conditions are added; the time slot's value is the first parameter, the category's the last |
| FoodRoutes.BuildFoodQuery | routes/food.js:12-35 | the built text and parameters are those of the conditions for the supplied filters, with ORDER BY name always appended |
| FoodRoutes.ConditionPlaceholder | routes/food.js:17-27 | each condition carries exactly one placeholder |
| FoodRoutes.WhereClausePlaceholders | routes/food.js:31-33 | the WHERE clause has one placeholder per condition |
| FoodRoutes.FoodQueryPlaceholders | routes/food.js:12-37 | the statement has exactly as many placeholders as bound parameters |
| FoodRoutes.NoFiltersListsAll | routes/food.js:12-35 | with no filter (an absent type, an empty type or 'all'), the statement is the whole table ordered by name, with no parameters |
| FoodRoutes.FoodListing | routes/food.js:12-37 | the statement returns only ids of existing rows |
| FoodRoutes.ListingFilters | routes/food.js:16-37 | each parameter binds its own column, so the listing holds exactly the rows that every supplied filter accepts |
| FoodRoutes.ListingIgnoresAvailability | routes/food.js:11-12 | toggling availability never adds a row to the listing or removes one |
| FoodRoutes.UpdateAvailabilityRoute | routes/food.js:58-94 | a failing read answers 500 and changes nothing; otherwise the route writes a prefix of the FALSE-only rows; it answers success iff no write failed, and then reports every row read and leaves the complete pass |
| FoodRoutes.GetFood | routes/food.js:97-114 | 404 iff no row has the id, otherwise that row |
| FoodRoutes.HotelMenu | routes/food.js:117-134 | exactly the items linked to the hotel whose `is_available` is TRUE |
| Hotels.HotelParams | routes/hotels.js:14-17 | one parameter iff the type is truthy and not 'all', and then it is the type itself; otherwise none |
| Hotels.BuildHotelQuery | routes/hotels.js:11-19 | the text is the active-hotel select, plus the type clause exactly when the type filters, always followed by ORDER BY rating DESC; the parameters match |
| Hotels.TypeClausePlaceholder | routes/hotels.js:15 | the type clause carries exactly one placeholder |
| Hotels.HotelQueryPlaceholders | routes/hotels.js:11-21 | the statement has as many placeholders as bound parameters |
| Hotels.HotelListing | routes/hotels.js:11-21 | the listing holds only existing, active hotels |
| Hotels.ListingFilters | routes/hotels.js:11-21 | with the type bound into the clause, the listing holds exactly the active hotels of the requested type or of type 'both', and every active hotel when there is no filter |
| Hotels.BothAlwaysListed | routes/hotels.js:15 | an active hotel of type 'both' is listed under every filter |
| Hotels.FilterNarrows | routes/hotels.js:14-17 | a filter only narrows the unfiltered listing, and 'all' is the same as no filter |
| Hotels.GetHotel | routes/hotels.js:30-47 | 404 iff no row has the id, otherwise that row, inactive hotels included |
| Middleware.RequireAuth | middleware/auth.js:2-12 | `next()` iff the session has a truthy `userId`, otherwise 401 with `requiresLogin` |
| Middleware.RequireAdmin | middleware/auth.js:15-24 | `next()` iff the session has a truthy `adminId`, otherwise 401 |
| Middleware.AdminGuardRejectsUnsetId | middleware/auth.js:15-24 | a session whose `adminId` was never set is rejected |
| Middleware.ViewOf | middleware/auth.js:33-39 | `req.user` carries id, name, email and phone, and not the password hash |
| Middleware.AttachUser | middleware/auth.js:27-46 | `req.user` becomes the user's view only when there is a session user and the lookup finds the row; otherwise, lookup errors included, it is unchanged |
| Admin.AdminLogin | routes/admin.js:10-25 | success iff both credentials equal the hard-coded pair; success sets `isAdmin` and `adminUsername`; failure is 401 and leaves the session alone; `adminId` never changes, so the middleware guard's answer does not change either |
| Admin.RequireAdmin | routes/admin.js:38-44 | `next()` iff the session's `isAdmin` is truthy, otherwise 401 |
| Admin.SavedRow | routes/admin.js:98-104 | an update takes `time_slot` from the form's category and keeps the `category` column and the override |
| Admin.NewRow | routes/admin.js:105-111 | an insert uses the category for both `time_slot` and `category`; the override starts FALSE |
| Admin.SaveFood | routes/admin.js:93-117 | non-admins get 401 and nothing changes; a truthy id updates that row if it exists; otherwise one row is inserted under the next fresh id; table invariants are kept |
| Admin.SaveKeepsOverride | routes/admin.js:98-112 | saving never changes an existing override, and an inserted row is selected by both evaluators |
| Admin.ToggleFood | routes/admin.js:120-136 | for admins, the table becomes the toggle of the old table, and nothing else changes; otherwise 401 |
| Admin.ResetOverride | routes/admin.js:139-148 | for admins, the table becomes the override reset of the old table; otherwise 401 |
| Admin.ToggledRowUnselected | routes/admin.js:126-129 | a toggled row is selected by neither evaluator |
| Admin.ResetRowSelected | routes/admin.js:142 | after a reset, both evaluators select the row again |
| Admin.Unlinked | routes/admin.js:156 | exactly the links to other foods remain |
| Admin.Detached | routes/admin.js:159 | every order-item row is kept; only references to the food are cleared |
| Admin.DeleteFood | routes/admin.js:151-169 | the three statements take effect in order up to the one that throws, and nothing is rolled back; success iff all three ran |
| Admin.DeleteLeavesNoReference | routes/admin.js:155-162 | after a complete delete, no link and no order item refers to the food, and order history keeps every other field |
| Admin.GetRestaurantStatus | routes/admin.js:172-185 | the stored row, or open and 'breakfast' when there is none |
| Admin.StatusUpdated | routes/admin.js:195-207 | each supplied field replaces the stored one; fields not supplied are kept |
| Admin.StatusInserted | routes/admin.js:208-212 | `is_open` defaults to TRUE and a falsy serving time to 'breakfast' |
| Admin.UpdateRestaurantStatus | routes/admin.js:188-220 | with a row, one SET entry per supplied field; no fields gives 500 with nothing changed; without a row, one row is inserted with the defaults; non-admins get 401 |
| Admin.StatusReadBack | routes/admin.js:175-212 | reading back after a write gives the values sent, except that an empty serving time sent to an empty table reads back as 'breakfast' |
| CartModel.FindIndex | routes/cart.js:36-38 | the first entry with the key, or -1 iff no entry has it |
| CartModel.Without | routes/cart.js:137-139 | exactly the entries with another key remain |
| CartModel.RemoveAt | routes/cart.js:100 | `splice(i, 1)` drops entry i and keeps the others in order |
| CartModel.WithQuantity | routes/cart.js:103 | only entry i's quantity changes |
| CartModel.CountWithQuantity | routes/cart.js:103-106 | setting a quantity changes the count by the difference |
| CartModel.CountRemoveAt | routes/cart.js:100-106 | removing an entry subtracts its quantity from the count |
| CartModel.WithoutAbsent | routes/cart.js:137-139 | filtering out an absent key leaves the cart as it is |
| CartModel.WithoutPresent | routes/cart.js:137-139 | with unique keys, filtering out a present key removes exactly its one entry |
| CartModel.WithoutUnique | routes/cart.js:137-139 | filtering keeps keys unique |
| CartModel.CountWithout | routes/cart.js:137-141 | removing a key subtracts its entry's quantity from the count, or nothing if the key is absent |
| CartModel.RemoveAtUnique | routes/cart.js:100 | splicing keeps keys unique |
| CartModel.PushUnique | routes/cart.js:45-53 | pushing an absent key keeps keys unique |
| CartModel.WithQuantityUnique | routes/cart.js:42 | changing a quantity keeps keys unique |
| CartModel.KeysFind | routes/cart.js:36-38 | a key is in the cart iff `findIndex` finds it |
| CartModel.AddedSpec | routes/cart.js:36-56 | a new key is appended as one entry at the end; an existing key keeps the length and grows only that entry; keys stay unique; the count grows by the quantity added |
| CartModel.AddedUnique | routes/cart.js:36-54 | adding to a cart with unique keys keeps them unique |
| CartModel.AddedKeys | routes/cart.js:36-54 | after an add, the cart's keys are the old keys plus the added one |
| CartModel.Updated | routes/cart.js:87-104 | the update fails iff the key is absent |
| CartModel.UpdatedSpec | routes/cart.js:98-106 | a quantity of at most 0 removes the key and its quantity from the count, the same as removing it; any other quantity replaces the entry's quantity and keeps the keys; keys stay unique |
| CartModel.RemovedSpec | routes/cart.js:137-139 | removal drops the key and only that key; an absent key is a no-op; keys stay unique |
| CartRoutes.Initialised | routes/cart.js:5-9 | the existing cart, or an empty one when there is none |
| CartRoutes.InitialisedIdempotent | routes/cart.js:5-9 | running `initCart` twice is the same as running it once |
| CartRoutes.InitCart | routes/cart.js:5-9 | creates an empty cart only when none exists |
| CartRoutes.GetCount | routes/cart.js:12-19 | the reported count is the sum of the quantities |
| CartRoutes.NewEntry | routes/cart.js:45-53 | the pushed entry has the request's key and quantity |
| CartRoutes.Add | routes/cart.js:22-71 | a falsy required field gives 400 with the cart as `initCart` left it; otherwise the cart becomes the added cart, and the count is that cart's count |
| CartRoutes.Update | routes/cart.js:74-121 | 400 for a falsy `foodId` or a missing quantity; 404 for an absent key (cart unchanged); otherwise the updated cart and its count |
| CartRoutes.Remove | routes/cart.js:124-156 | 400 for a falsy `foodId`; otherwise every entry with the key is filtered out, and the count is the new cart's |
| CartRoutes.Clear | routes/cart.js:159-167 | the cart is empty and the count is 0 |
| Decimal.ToDecimal | routes/orders.js:53 | a numeral is a non-empty string of digits |
| Decimal.ParseToDecimal | routes/orders.js:53 | parsing a printed number gives the number back |
| Decimal.ToDecimalInjective | routes/orders.js:53 | distinct numbers print differently |
| Orders.DeliveryAddress | routes/orders.js:22 | with a truthy landmark, the address, then ", Near ", then the landmark; otherwise the address unchanged |
| Orders.BillNumberShape | routes/orders.js:53 | a bill number is "BILL-", the millisecond's digits, a dash and the order id's digits |
| Orders.SplitAtDash | routes/orders.js:53 | `<digits>-<rest>` splits in only one way |
| Orders.BillNumberInjective | routes/orders.js:53 | a bill number determines both its millisecond and its order id, so distinct orders get distinct bill numbers, even in the same millisecond |
| Orders.OrderRowDefaults | routes/orders.js:27-39 | status 'Order Confirmed', the requested total, and defaults for falsy fields: 'Cash on Delivery', NULL for notes and coupon, discount 0; the composed address |
| Orders.ItemRowDefaults | routes/orders.js:45-48 | an item row for the order, with defaults 'Food Item' and hotel 1 |
| Orders.ItemRows | routes/orders.js:44-50 | one row per requested item, in request order |
| Orders.PlaceOrder | routes/orders.js:7-79 | 401 without a session user and 400 for missing or empty items, both before any write; any throwing statement rolls all three tables back and answers 500; success adds exactly one order under the fresh id, one item row per item and one bill, with the bill number for that id; invariants are kept |
| Orders.Transaction | routes/orders.js:23-72 | inside the transaction, any throwing statement leaves the three tables as they were and answers 500; otherwise one order, one item row per item and one bill are added under the fresh id |
| Orders.InsertItems | routes/orders.js:42-50 | the item rows are inserted one by one in request order; a failing insert stops the loop with the earlier rows already written |
| Orders.PlacedBillFound | routes/orders.js:53-57 | the bill a placement inserts is the only bill carrying the fresh order id (earlier bills reference existing orders), so the details route's LEFT JOIN on bills reports exactly its number |
| Orders.ItemsOf | routes/orders.js:143-149 | exactly the item rows of the order |
| Orders.ItemsOfCounts | routes/orders.js:143-149 | each row of the order is selected as many times as it occurs in `order_items`, rows of other orders never |
| Orders.ItemsOfAppend | routes/orders.js:143-149 | the selected rows keep the order in which they were inserted |
| Orders.FirstBill | routes/orders.js:125-129 | none iff the order has no bill, otherwise the number of one of its bills |
| Orders.GetOrderDetails | routes/orders.js:115-165 | 401 without a session user; the details iff the order exists, belongs to the session user and that user's row exists; 404 otherwise |
| Orders.LinesOf | routes/orders.js:188-191 | one line per item, with its name, price and quantity |
| Orders.GetOrderItems | routes/orders.js:168-204 | 401 without a session user; the lines iff the order exists and belongs to the session user; 404 otherwise |
| Orders.OwnerOnly | routes/orders.js:124-140 | two sessions that both see an order have the same user |
| AuthRoutes.Signup | routes/auth.js:7-71 | success iff all four fields are truthy, the password has at least 6 characters and the email is unused; failure is 400 with nothing changed; success inserts one user holding the hash under the fresh id and signs the session in, so that `requireAuth` passes |
| AuthRoutes.Login | routes/auth.js:74-133 | 400 for a missing field; the same 401 answer for an unknown email and for a rejected password; success signs the session in as the user with that email; a failure leaves the session alone |
| AuthRoutes.Status | routes/auth.js:152-164 | authenticated iff the session has a truthy `userId`; the user is `req.user` when set, otherwise the session's id and name |
| AuthRoutes.StatusMatchesGuard | routes/auth.js:153 | the status route and `requireAuth` agree on who is signed in |

## Left out

- Express routing, CORS, body parsing, the session store, response
  bodies beyond status and payload, startup and logging (server.js:1-137).
  Handlers are methods over the session and the store.
- Timers (server.js:181-184). One background pass at a given minute is
  the unit. `setInterval` does not await a pass, so overlapping passes are
  possible in the code; that concurrency is not modelled.
- The MySQL pool, connections, DDL and seeding. The ENUM columns are not
  enforced. `food_items.time_slot` is an ENUM of the five slot names
  (config/database.js:103), so only those names and '' (what MySQL stores
  for a value outside the ENUM when not in strict mode) can be read back.
  The model lets `timeSlot` be any string; `TimeSlots.Decide` gives no
  decision for every name outside the table. For names such as
  "constructor" or "toString", which `timeSlots[...]` finds on
  Object.prototype, the code would write `is_available = false`
  instead; such names cannot be stored in the column.
- AuthRoutes.Signup: email uniqueness is exact string equality
  (`AuthRoutes.EmailTaken`, `Store.UniqueEmails`). MySQL's default
  collation, which config/database.js does not override, compares case
  insensitively. So "Bob@x.com" is refused when "bob@x.com" exists in the
  code, and accepted by the model.
- AuthRoutes.Login: the email lookup is exact, whereas `WHERE email = ?`
  under the default collation also finds the row in another letter case.
- FoodRoutes.ListingFilters: each filter is compared by exact string
  equality, whereas MySQL's default collation ignores case.
- Hotels.ListingFilters: the type filter is compared by exact string
  equality, whereas `type = ?` under MySQL's default collation ignores
  case: for `?type=VEG` the code lists the active 'veg' hotels as well as
  the 'both' ones, and the model only the 'both' ones.
- Admin.StatusReadBack: the serving time is any string.
  `restaurant_status.current_serving_time` is an ENUM of 'breakfast',
  'lunch', 'evening' and 'dinner' (config/database.js:173). Only those
  four names read back unchanged; any other value is refused or stored as
  '' by MySQL.
- Admin.UpdateRestaurantStatus: a field counts as supplied when it is
  `!== undefined` (routes/admin.js:198-205), so a JSON `null` for `is_open`
  or `current_serving_time` is written as NULL to these nullable columns,
  and an `is_open` of `null` is inserted as NULL (routes/admin.js:211).
  The inputs are `Option` values, where `None` means "not sent", so a
  supplied null is not modelled.
- CartRoutes.Update: only `quantity === undefined` is refused
  (routes/cart.js:80). A JSON `quantity: null` passes, and `null <= 0`
  splices the entry out (routes/cart.js:98). The quantity is an
  `Option<int>`, so this path is not modelled.
- CartModel.Key: `foodId` and `hotelId` are integers. The code compares
  keys with `===` (routes/cart.js:37, 88, 138), so a body field sent as the
  string "5" and one sent as the number 5 are different keys there, and
  the same key in the model.
- Admin.ToggleFood: `is_available` is taken as a boolean. A request
  without it binds NULL (routes/admin.js:126-129), which leaves the row
  unlisted by `FoodRoutes.HotelMenu`; that case is not modelled.
- bcrypt and the wall clock are parameters. Nothing is proved about the
  hash beyond storing its result.
- A store error in a single-statement handler (the catch that answers
  500) is not modelled. Faults are modelled only where several writes can
  be cut short: the evaluator passes, order placement and food deletion.
- Prices, totals and discounts are integers. `parseFloat`/`parseInt` on
  cart fields and DECIMAL rounding are left out, and so are the revenue and
  user statistics (routes/admin.js:226-312).
- Other routes: `GET /api/food/all`, `GET /api/orders/my`, logout, bills,
  and the admin order listing and order-status update. These are single
  reads or writes, outside the modelled core.
- SQL result order (`ORDER BY name`, `ORDER BY rating DESC`) is not
  modelled. The listings are sets of ids; the statement text still carries
  the ORDER BY. The background read has no ORDER BY, and
  `Availability.SelectRows` leaves the order open.
- Availability.SelectRows: the order in which MySQL returns rows is a free
  choice of the method. Nothing is proved about a particular order.
- Orders.ItemsOfAppend: the item rows of an order are taken in insertion
  order. The statement at routes/orders.js:143-149 has no ORDER BY, so SQL
  does not promise that order; it is a modelling choice that matches
  InnoDB's usual behaviour.
- Admin.SaveFood: form fields are taken as present. A missing field, which
  the driver sends as NULL, is not modelled.
- Orders.PlaceOrder: `delivery_address` is taken as a string. A missing
  address, which the template literal prints as "undefined", is not
  modelled.
- CartRoutes.Add: quantities are numbers. If the client sends a string,
  `quantity +=` concatenates in JavaScript; that is not modelled.
- AuthRoutes.Signup: the password length counts characters, not the
  UTF-16 code units JavaScript counts.
- Middleware.RequireAuth: `req.session` is an `Option`. express-session
  always supplies one, so the `None` case only reflects the code's own
  guard.
- URL parameters such as `:id` are taken as integers. The string-to-number
  coercion MySQL performs is not modelled.
