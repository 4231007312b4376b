/**
 * The handlers of routes/food.js: the listing query builder, the on-demand
 * availability pass, lookup by id and the per-hotel menu.
 */
module FoodRoutes {
  import opened Wrappers
  import opened JsValues
  import opened Store
  import opened TimeSlots
  import opened Availability
  import SqlText

  // ---------------------------------------------------------------------------
  // GET /api/food

  const FOOD_SELECT := "SELECT * FROM food_items"
  const FOOD_ORDER := " ORDER BY name"
  /** The three conditions the listing can push. */
  datatype Condition = TimeSlotIs | TypeIs | CategoryIs

  /** The column a condition compares. */
  function Column(c: Condition): string {
    match c
    case TimeSlotIs => "time_slot"
    case TypeIs => "type"
    case CategoryIs => "category"
  }

  /** The condition's SQL text: `<column> = ?`. */
  function ConditionText(c: Condition): string {
    Column(c) + " = ?"
  }

  function ConditionTexts(conditions: seq<Condition>): (texts: seq<string>)
    ensures |texts| == |conditions|
  {
    if conditions == [] then [] else [ConditionText(conditions[0])] + ConditionTexts(conditions[1..])
  }

  lemma ColumnPlain(c: Condition)
    ensures SqlText.Placeholders(Column(c)) == 0
  {
    SqlText.NoPlaceholders(Column(c));
  }

  lemma ComparisonPlaceholder()
    ensures SqlText.Placeholders(" = ?") == 1
  {
    SqlText.NoPlaceholders(" = ");
    SqlText.OnePlaceholder();
    SqlText.PlaceholdersConcat(" = ", "?");
    assert " = ?" == " = " + "?";
  }

  lemma ConditionSplit(c: Condition)
    ensures SqlText.Placeholders(ConditionText(c)) == SqlText.Placeholders(Column(c)) + SqlText.Placeholders(" = ?")
  {
    SqlText.PlaceholdersConcat(Column(c), " = ?");
  }

  /** Each condition carries exactly one placeholder. */
  lemma ConditionPlaceholder(c: Condition)
    ensures SqlText.Placeholders(ConditionText(c)) == 1
  {
    ColumnPlain(c);
    ConditionSplit(c);
    ComparisonPlaceholder();
  }

  lemma {:induction false} ConditionTextsPlaceholders(conditions: seq<Condition>)
    ensures SqlText.PlaceholdersOfAll(ConditionTexts(conditions)) == |conditions|
  {
    if conditions != [] {
      ConditionPlaceholder(conditions[0]);
      ConditionTextsPlaceholders(conditions[1..]);
    }
  }

  lemma SelectTextPlaceholders()
    ensures SqlText.Placeholders(FOOD_SELECT) == 0
  {
    SqlText.NoPlaceholders(FOOD_SELECT);
  }

  lemma OrderTextPlaceholders()
    ensures SqlText.Placeholders(FOOD_ORDER) == 0
  {
    SqlText.NoPlaceholders(FOOD_ORDER);
  }

  lemma WhereTextPlaceholders()
    ensures SqlText.Placeholders(" WHERE ") == 0 && SqlText.Placeholders(" AND ") == 0
  {
    SqlText.NoPlaceholders(" WHERE ");
    SqlText.NoPlaceholders(" AND ");
  }

  /** Whether the `type` query parameter filters: truthy and not 'all'. */
  predicate TypeFilters(foodType: Option<string>) {
    StrTruthy(foodType) && foodType.value != "all"
  }

  /** The conditions, in push order, for the filters a request supplies. */
  function FoodConditions(timeSlot: Option<string>, foodType: Option<string>, category: Option<string>)
    : seq<Condition>
  {
    (if StrTruthy(timeSlot) then [TimeSlotIs] else [])
    + (if TypeFilters(foodType) then [TypeIs] else [])
    + (if StrTruthy(category) then [CategoryIs] else [])
  }

  /** The parameters, in push order, for the filters a request supplies: one per condition. */
  function FoodParams(timeSlot: Option<string>, foodType: Option<string>, category: Option<string>)
    : (params: seq<string>)
    ensures |params| == |FoodConditions(timeSlot, foodType, category)|
  {
    (if StrTruthy(timeSlot) then [timeSlot.value] else [])
    + (if TypeFilters(foodType) then [foodType.value] else [])
    + (if StrTruthy(category) then [category.value] else [])
  }

  /**
   * Each supplied filter pushes exactly one condition (a truthy time slot, a
   * type other than 'all', a truthy category) and no other is pushed; the
   * time slot's parameter comes first and the category's last.
   */
  lemma FoodConditionsFilters(timeSlot: Option<string>, foodType: Option<string>, category: Option<string>)
    ensures var conditions := FoodConditions(timeSlot, foodType, category);
      && |conditions| == (if StrTruthy(timeSlot) then 1 else 0)
        + (if TypeFilters(foodType) then 1 else 0) + (if StrTruthy(category) then 1 else 0)
      && (TimeSlotIs in conditions <==> StrTruthy(timeSlot))
      && (TypeIs in conditions <==> TypeFilters(foodType))
      && (CategoryIs in conditions <==> StrTruthy(category))
    ensures var params := FoodParams(timeSlot, foodType, category);
      && (StrTruthy(timeSlot) ==> params[0] == timeSlot.value)
      && (StrTruthy(category) ==> params[|params| - 1] == category.value)
      && (TypeFilters(foodType) ==> foodType.value in params)
  {
  }

  /** The WHERE clause for a list of conditions, empty when there is none. */
  function WhereClause(conditions: seq<Condition>): string {
    if |conditions| > 0 then " WHERE " + SqlText.Join(ConditionTexts(conditions), " AND ") else ""
  }

  /** The statement text for a list of conditions. */
  function FoodQueryText(conditions: seq<Condition>): string {
    FOOD_SELECT + WhereClause(conditions) + FOOD_ORDER
  }

  /**
   * Builds the listing query the way the handler does: push one condition
   * and one parameter per supplied filter, join the conditions with AND,
   * always append ORDER BY name.
   */
  method BuildFoodQuery(timeSlot: Option<string>, foodType: Option<string>, category: Option<string>)
    returns (query: string, params: seq<string>)
    ensures params == FoodParams(timeSlot, foodType, category)
    ensures query == FoodQueryText(FoodConditions(timeSlot, foodType, category))
  {
    query := FOOD_SELECT;
    params := [];
    var conditions: seq<Condition> := [];

    if StrTruthy(timeSlot) {
      conditions := conditions + [TimeSlotIs];
      params := params + [timeSlot.value];
    }
    if TypeFilters(foodType) {
      conditions := conditions + [TypeIs];
      params := params + [foodType.value];
    }
    if StrTruthy(category) {
      conditions := conditions + [CategoryIs];
      params := params + [category.value];
    }
    assert conditions == FoodConditions(timeSlot, foodType, category);
    var where := "";
    if |conditions| > 0 {
      where := " WHERE " + SqlText.Join(ConditionTexts(conditions), " AND ");
    }
    assert where == WhereClause(conditions);
    query := query + where + FOOD_ORDER;
  }

  /**
   * The statement carries exactly one placeholder per parameter, so the
   * driver binds every supplied filter to its own condition.
   */
  lemma FoodQueryPlaceholders(timeSlot: Option<string>, foodType: Option<string>, category: Option<string>)
    ensures SqlText.Placeholders(FoodQueryText(FoodConditions(timeSlot, foodType, category)))
      == |FoodParams(timeSlot, foodType, category)|
  {
    var conditions := FoodConditions(timeSlot, foodType, category);
    WhereClausePlaceholders(conditions);
    SelectTextPlaceholders();
    OrderTextPlaceholders();
    SqlText.WrappedPlaceholders(FOOD_SELECT, WhereClause(conditions), FOOD_ORDER);
  }

  /** The WHERE clause has one placeholder per condition. */
  lemma WhereClausePlaceholders(conditions: seq<Condition>)
    ensures SqlText.Placeholders(WhereClause(conditions)) == |conditions|
  {
    if |conditions| > 0 {
      var joined := SqlText.Join(ConditionTexts(conditions), " AND ");
      WhereTextPlaceholders();
      ConditionTextsPlaceholders(conditions);
      SqlText.PlaceholdersJoin(ConditionTexts(conditions), " AND ");
      SqlText.PlaceholdersConcat(" WHERE ", joined);
    } else {
      SqlText.NoPlaceholders("");
    }
  }

  /** Without filters (an absent or 'all' type included) the listing is the whole table by name. */
  lemma NoFiltersListsAll(timeSlot: Option<string>, foodType: Option<string>, category: Option<string>)
    requires !StrTruthy(timeSlot) && !StrTruthy(category)
    requires foodType.None? || foodType == Some("all") || foodType == Some("")
    ensures FoodParams(timeSlot, foodType, category) == []
    ensures FoodQueryText(FoodConditions(timeSlot, foodType, category)) == "SELECT * FROM food_items ORDER BY name"
  {
  }

  /** The value a row holds in the column a condition compares. */
  function ColumnValue(c: Condition, item: FoodItem): string {
    match c
    case TimeSlotIs => item.timeSlot
    case TypeIs => item.foodType
    case CategoryIs => item.category
  }

  /** A row satisfies the WHERE clause when each condition's column equals its bound parameter. */
  predicate RowMatches(conditions: seq<Condition>, params: seq<string>, item: FoodItem)
    requires |conditions| == |params|
  {
    forall i :: 0 <= i < |conditions| ==> ColumnValue(conditions[i], item) == params[i]
  }

  /** The ids the listing statement returns, read off the built conditions and parameters. */
  function FoodListing(foods: map<int, FoodItem>, timeSlot: Option<string>, foodType: Option<string>, category: Option<string>)
    : (ids: set<int>)
    ensures ids <= foods.Keys
  {
    var conditions := FoodConditions(timeSlot, foodType, category);
    var params := FoodParams(timeSlot, foodType, category);
    set id | id in foods && RowMatches(conditions, params, foods[id])
  }

  /** What a filter demands of a row, stated independently of the query text. */
  predicate WantedBy(item: FoodItem, timeSlot: Option<string>, foodType: Option<string>, category: Option<string>) {
    && (StrTruthy(timeSlot) ==> item.timeSlot == timeSlot.value)
    && (TypeFilters(foodType) ==> item.foodType == foodType.value)
    && (StrTruthy(category) ==> item.category == category.value)
  }

  /**
   * Each parameter is bound to the condition on its own column, so the
   * listing holds exactly the rows every supplied filter accepts.
   */
  lemma ListingFilters(foods: map<int, FoodItem>, timeSlot: Option<string>, foodType: Option<string>, category: Option<string>)
    ensures forall id ::
      (id in FoodListing(foods, timeSlot, foodType, category) <==> id in foods && WantedBy(foods[id], timeSlot, foodType, category))
  {
    var conditions := FoodConditions(timeSlot, foodType, category);
    var params := FoodParams(timeSlot, foodType, category);
    forall item: FoodItem
      ensures RowMatches(conditions, params, item) <==> WantedBy(item, timeSlot, foodType, category)
    {
      PairsMatch(conditions, params, item, timeSlot, foodType, category);
    }
  }

  lemma PairsMatch(conditions: seq<Condition>, params: seq<string>, item: FoodItem,
                   timeSlot: Option<string>, foodType: Option<string>, category: Option<string>)
    requires conditions == FoodConditions(timeSlot, foodType, category)
    requires params == FoodParams(timeSlot, foodType, category)
    ensures RowMatches(conditions, params, item) <==> WantedBy(item, timeSlot, foodType, category)
  {
    var a := if StrTruthy(timeSlot) then [TimeSlotIs] else [];
    var b := if TypeFilters(foodType) then [TypeIs] else [];
    var c := if StrTruthy(category) then [CategoryIs] else [];
    var pa := if StrTruthy(timeSlot) then [timeSlot.value] else [];
    var pb := if TypeFilters(foodType) then [foodType.value] else [];
    var pc := if StrTruthy(category) then [category.value] else [];
    assert conditions == a + b + c;
    assert params == pa + pb + pc;
    RowMatchesConcat(a + b, pa + pb, c, pc, item);
    RowMatchesConcat(a, pa, b, pb, item);
    PieceMatches(TimeSlotIs, StrTruthy(timeSlot), timeSlot.GetOr(""), item);
    PieceMatches(TypeIs, TypeFilters(foodType), foodType.GetOr(""), item);
    PieceMatches(CategoryIs, StrTruthy(category), category.GetOr(""), item);
  }

  /** A filter that is present contributes one comparison; an absent one contributes none. */
  lemma PieceMatches(c: Condition, present: bool, value: string, item: FoodItem)
    ensures RowMatches(if present then [c] else [], if present then [value] else [], item)
      <==> (present ==> ColumnValue(c, item) == value)
  {
    if present {
      assert ([c])[0] == c && ([value])[0] == value;
    }
  }

  /** A row matches two lists of conditions joined by AND iff it matches each list. */
  lemma RowMatchesConcat(c1: seq<Condition>, p1: seq<string>, c2: seq<Condition>, p2: seq<string>, item: FoodItem)
    requires |c1| == |p1| && |c2| == |p2|
    ensures RowMatches(c1 + c2, p1 + p2, item) <==> RowMatches(c1, p1, item) && RowMatches(c2, p2, item)
  {
    var c, p := c1 + c2, p1 + p2;
    if RowMatches(c, p, item) {
      forall i | 0 <= i < |c1| ensures ColumnValue(c1[i], item) == p1[i] {
        assert c[i] == c1[i] && p[i] == p1[i];
      }
      forall i | 0 <= i < |c2| ensures ColumnValue(c2[i], item) == p2[i] {
        assert c[|c1| + i] == c2[i] && p[|c1| + i] == p2[i];
      }
    }
    if RowMatches(c1, p1, item) && RowMatches(c2, p2, item) {
      forall i | 0 <= i < |c| ensures ColumnValue(c[i], item) == p[i] {
        if i < |c1| {
          assert c[i] == c1[i] && p[i] == p1[i];
        } else {
          assert c[i] == c2[i - |c1|] && p[i] == p2[i - |c1|];
        }
      }
    }
  }

  /** The listing never looks at availability: toggling a row leaves it listed or unlisted alike. */
  lemma ListingIgnoresAvailability(foods: map<int, FoodItem>, id: int, available: bool,
                                   timeSlot: Option<string>, foodType: Option<string>, category: Option<string>)
    requires id in foods
    ensures FoodListing(foods[id := foods[id].(isAvailable := available)], timeSlot, foodType, category)
      == FoodListing(foods, timeSlot, foodType, category)
  {
    ListingFilters(foods, timeSlot, foodType, category);
    ListingFilters(foods[id := foods[id].(isAvailable := available)], timeSlot, foodType, category);
  }

  // ---------------------------------------------------------------------------
  // POST /api/food/update-availability

  datatype UpdateResponse = Updated(updatedCount: nat) | ServerError

  /**
   * The on-demand pass: the same window table and decision as the
   * background pass, but only rows whose override is FALSE (not NULL) are
   * read. Answers with the number of rows read, skipped ones included; any
   * throwing query answers 500, keeping the writes made before it.
   */
  method UpdateAvailabilityRoute(db: Database, hours: int, minutes: int, fault: StoreFault)
    returns (response: UpdateResponse, ghost fetched: seq<FetchedRow>, ghost completed: nat)
    requires 0 <= hours < 24 && 0 <= minutes < 60
    modifies db`foods
    ensures fault.ReadFails? ==> response == ServerError && db.foods == old(db.foods)
    ensures !fault.ReadFails? ==>
      && Ids(fetched) == Selected(old(db.foods), FalseOnly)
      && completed == StopIndex(fetched, fault)
      && db.foods == PassResult(old(db.foods), CurrentMinute(hours, minutes), Ids(fetched[..completed]))
    ensures response.Updated? <==> !fault.ReadFails? && completed == |fetched|
    ensures response.Updated? ==>
      && response.updatedCount == |Selected(old(db.foods), FalseOnly)|
      && db.foods == FullPass(old(db.foods), CurrentMinute(hours, minutes), FalseOnly)
  {
    var currentTime := CurrentMinute(hours, minutes);
    if fault.ReadFails? {
      return ServerError, [], 0;
    }
    var foods := SelectRows(db.foods, FalseOnly);
    fetched := foods;
    var done := EvaluateRows(db, currentTime, foods, fault);
    completed := done;
    if done < |foods| {
      return ServerError, fetched, completed;
    }
    DistinctIdsCount(foods);
    assert foods[..|foods|] == foods;
    response := Updated(|foods|);
  }

  // ---------------------------------------------------------------------------
  // GET /api/food/:id and GET /api/food/hotel/:hotelId

  datatype FoodLookup = Found(item: FoodItem) | NotFound

  /** `SELECT * FROM food_items WHERE id = ?`, answering 404 when no row matches. */
  function GetFood(foods: map<int, FoodItem>, id: int): (r: FoodLookup)
    ensures r.NotFound? <==> id !in foods
    ensures r.Found? ==> r.item == foods[id]
  {
    if id in foods then Found(foods[id]) else NotFound
  }

  /** The ids of the items linked to `hotelId` that are currently available. */
  function HotelMenu(foods: map<int, FoodItem>, links: set<HotelLink>, hotelId: int): (ids: set<int>)
    ensures forall id :: id in ids ==> id in foods && foods[id].isAvailable
    ensures forall id :: id in ids <==> id in foods && HotelLink(hotelId, id) in links && foods[id].isAvailable
  {
    set link | link in links && link.hotelId == hotelId && link.foodId in foods && foods[link.foodId].isAvailable
      :: link.foodId
  }
}
