/**
 * The handlers of routes/hotels.js: the active-hotel listing with its
 * optional veg/non-veg filter, and lookup by id.
 */
module Hotels {
  import opened Wrappers
  import opened JsValues
  import opened Store
  import SqlText

  // ---------------------------------------------------------------------------
  // GET /api/hotels

  const HOTEL_SELECT := "SELECT * FROM hotels WHERE is_active = TRUE"
  const TYPE_CLAUSE := " AND (type = ? OR type = \"both\")"
  const HOTEL_ORDER := " ORDER BY rating DESC"

  /** Whether the `type` query parameter filters: truthy and not 'all'. */
  predicate TypeFilters(hotelType: Option<string>) {
    StrTruthy(hotelType) && hotelType.value != "all"
  }

  /** The statement text: the type clause only when the parameter filters. */
  function HotelQueryText(hotelType: Option<string>): string {
    HOTEL_SELECT + (if TypeFilters(hotelType) then TYPE_CLAUSE else "") + HOTEL_ORDER
  }

  /** The bound parameters: the type, when it filters. */
  function HotelParams(hotelType: Option<string>): (params: seq<string>)
    ensures |params| <= 1
    ensures params != [] <==> TypeFilters(hotelType)
    ensures TypeFilters(hotelType) ==> params == [hotelType.value]
  {
    if TypeFilters(hotelType) then [hotelType.value] else []
  }

  /**
   * Builds the listing query the way the handler does: start from the
   * active hotels, append the type clause and its parameter when a type
   * other than 'all' is given, always append the rating order.
   */
  method BuildHotelQuery(hotelType: Option<string>) returns (query: string, params: seq<string>)
    ensures params == HotelParams(hotelType)
    ensures query == HotelQueryText(hotelType)
  {
    query := HOTEL_SELECT;
    params := [];
    if StrTruthy(hotelType) && hotelType.value != "all" {
      query := query + TYPE_CLAUSE;
      params := params + [hotelType.value];
    }
    query := query + HOTEL_ORDER;
  }

  lemma SelectPlain()
    ensures SqlText.Placeholders(HOTEL_SELECT) == 0
  {
    SqlText.NoPlaceholders(HOTEL_SELECT);
  }

  lemma OrderPlain()
    ensures SqlText.Placeholders(HOTEL_ORDER) == 0
  {
    SqlText.NoPlaceholders(HOTEL_ORDER);
  }

  lemma EmptyPlain()
    ensures SqlText.Placeholders("") == 0
  {
    SqlText.NoPlaceholders("");
  }

  lemma ClauseHead()
    ensures SqlText.Placeholders(" AND (type = ") == 0
  {
    SqlText.NoPlaceholders(" AND (type = ");
  }

  lemma ClauseTail()
    ensures SqlText.Placeholders(" OR type = \"both\")") == 0
  {
    SqlText.NoPlaceholders(" OR type = \"both\")");
  }

  lemma ClauseSplit()
    ensures TYPE_CLAUSE == " AND (type = " + "?" + " OR type = \"both\")"
  {
  }

  /** The type clause carries exactly one placeholder. */
  lemma TypeClausePlaceholder()
    ensures SqlText.Placeholders(TYPE_CLAUSE) == 1
  {
    ClauseSplit();
    ClauseHead();
    ClauseTail();
    SqlText.OnePlaceholder();
    SqlText.WrappedPlaceholders(" AND (type = ", "?", " OR type = \"both\")");
  }

  /** One placeholder per bound parameter, with or without the type filter. */
  lemma HotelQueryPlaceholders(hotelType: Option<string>)
    ensures SqlText.Placeholders(HotelQueryText(hotelType)) == |HotelParams(hotelType)|
  {
    var clause := if TypeFilters(hotelType) then TYPE_CLAUSE else "";
    assert SqlText.Placeholders(clause) == |HotelParams(hotelType)| by {
      if TypeFilters(hotelType) {
        TypeClausePlaceholder();
      } else {
        EmptyPlain();
      }
    }
    SelectPlain();
    OrderPlain();
    SqlText.WrappedPlaceholders(HOTEL_SELECT, clause, HOTEL_ORDER);
  }

  /**
   * A row satisfies the type clause when every bound parameter equals its
   * `type` or the row's type is 'both'; with no parameter there is no clause.
   */
  predicate TypeClauseHolds(params: seq<string>, hotel: Hotel) {
    forall i :: 0 <= i < |params| ==> hotel.hotelType == params[i] || hotel.hotelType == "both"
  }

  /** The ids the listing statement returns, read off the bound parameters. */
  function HotelListing(hotels: map<int, Hotel>, hotelType: Option<string>): (ids: set<int>)
    ensures ids <= hotels.Keys
    ensures forall id :: id in ids ==> hotels[id].isActive
  {
    set id | id in hotels && hotels[id].isActive && TypeClauseHolds(HotelParams(hotelType), hotels[id])
  }

  /** What the `type` query parameter asks of a hotel, stated independently of the query text. */
  predicate WantedHotel(hotel: Hotel, hotelType: Option<string>) {
    hotel.isActive && (TypeFilters(hotelType) ==> hotel.hotelType == hotelType.value || hotel.hotelType == "both")
  }

  /**
   * The listing holds exactly the active hotels that the filter accepts:
   * under a type filter, a listed hotel has the requested type or 'both',
   * and every active hotel of that type or of type 'both' is listed.
   */
  lemma ListingFilters(hotels: map<int, Hotel>, hotelType: Option<string>)
    ensures forall id :: id in HotelListing(hotels, hotelType) <==> id in hotels && WantedHotel(hotels[id], hotelType)
  {
    var params := HotelParams(hotelType);
    forall hotel: Hotel
      ensures TypeClauseHolds(params, hotel) <==> (TypeFilters(hotelType) ==> hotel.hotelType == hotelType.value || hotel.hotelType == "both")
    {
      if TypeFilters(hotelType) {
        assert params[0] == hotelType.value;
      }
    }
  }

  /** A 'both' hotel is listed under every filter, as long as it is active. */
  lemma BothAlwaysListed(hotels: map<int, Hotel>, id: int, hotelType: Option<string>)
    requires id in hotels && hotels[id].isActive && hotels[id].hotelType == "both"
    ensures id in HotelListing(hotels, hotelType)
  {
  }

  /** Filtering only narrows the unfiltered listing. */
  lemma FilterNarrows(hotels: map<int, Hotel>, hotelType: Option<string>)
    ensures HotelListing(hotels, hotelType) <= HotelListing(hotels, None)
    ensures HotelListing(hotels, Some("all")) == HotelListing(hotels, None)
  {
    assert !TypeFilters(None) && !TypeFilters(Some("all"));
    assert HotelParams(None) == [] && HotelParams(Some("all")) == [];
    forall id | id in HotelListing(hotels, hotelType)
      ensures id in HotelListing(hotels, None)
    {
    }
  }

  // ---------------------------------------------------------------------------
  // GET /api/hotels/:id

  datatype HotelLookup = Found(hotel: Hotel) | NotFound

  /** `SELECT * FROM hotels WHERE id = ?`: inactive hotels are found too; 404 when no row matches. */
  function GetHotel(hotels: map<int, Hotel>, id: int): (r: HotelLookup)
    ensures r.NotFound? <==> id !in hotels
    ensures r.Found? ==> r.hotel == hotels[id]
  {
    if id in hotels then Found(hotels[id]) else NotFound
  }
}
