/**
 * The visitor's hotel search page: it sends the search form to the hotels
 * endpoint, keeps the returned hotels that have a room type with a free room
 * for the requested dates, and shows each hotel's starting price.
 *
 * The availability helper that counts free rooms in a room type's calendar
 * is not part of this model; it is passed in as the function `avail`.
 */
module VisitorSearch {
  import opened Wrappers
  import opened JsText
  import opened Subsequences
  import opened HotelCatalog
  import HotelsRoute
  import UrlQuery

  /** `findAvailability(schedule, checkIn, checkOut)`: free rooms for the date range. */
  type Availability = (Schedule, string, string) -> int

  // ---------------------------------------------------------------------------
  // Availability of a hotel

  /** Some room type has a free room for the dates. */
  predicate AnyRoomAvailable(roomTypes: seq<RoomType>, checkIn: string, checkOut: string, avail: Availability) {
    exists i :: 0 <= i < |roomTypes| && avail(roomTypes[i].schedule, checkIn, checkOut) > 0
  }

  /**
   * `checkRoomAvailability`: the room types are tried in order and the first
   * one with a free room answers true; a hotel without room types is
   * unavailable.
   */
  method CheckRoomAvailability(roomTypes: seq<RoomType>, checkIn: string, checkOut: string, avail: Availability)
    returns (available: bool)
    ensures available <==> AnyRoomAvailable(roomTypes, checkIn, checkOut, avail)
    ensures |roomTypes| == 0 ==> !available
  {
    var i := 0;
    while i < |roomTypes|
      invariant 0 <= i <= |roomTypes|
      invariant forall k :: 0 <= k < i ==> avail(roomTypes[k].schedule, checkIn, checkOut) <= 0
    {
      if avail(roomTypes[i].schedule, checkIn, checkOut) > 0 {
        return true;
      }
      i := i + 1;
    }
    return false;
  }

  // ---------------------------------------------------------------------------
  // The search

  /** The search form; every field is a string, "" when left blank. */
  datatype SearchParams = SearchParams(
    checkIn: string,
    checkOut: string,
    city: string,
    name: string,
    starRating: string,
    priceRange: string)

  /** The form as `URLSearchParams` holds it: every field in declaration order, blank ones as "". */
  function FormParams(p: SearchParams): seq<UrlQuery.Param> {
    [("checkIn", p.checkIn), ("checkOut", p.checkOut), ("city", p.city),
     ("name", p.name), ("starRating", p.starRating), ("priceRange", p.priceRange)]
  }

  /** The URL `fetchHotels` requests: the endpoint's path, '?', and the serialised form. */
  function RequestUrl(p: SearchParams): string {
    HOTELS_PATH + "?" + UrlQuery.Serialize(FormParams(p))
  }

  const HOTELS_PATH: string := "/api/hotels"

  /**
   * The query the endpoint reads from the page's request: every field of the
   * form arrives present and unchanged, whatever characters it holds.
   */
  function QueryOf(p: SearchParams): (q: HotelsRoute.Query)
    ensures q.checkIn == Some(p.checkIn) && q.checkOut == Some(p.checkOut)
    ensures q.city == Some(p.city) && q.name == Some(p.name)
    ensures q.starRating == Some(p.starRating) && q.priceRange == Some(p.priceRange)
  {
    FormArrives(p);
    FormLookup(p);
    HotelsRoute.QueryFromUrl(RequestUrl(p))
  }

  /** The endpoint parses back exactly the pairs the page serialised. */
  lemma FormArrives(p: SearchParams)
    ensures UrlQuery.Parse(UrlQuery.SearchOf(RequestUrl(p))) == FormParams(p)
  {
    var form := FormParams(p);
    assert '?' !in HOTELS_PATH;
    UrlQuery.SearchOfSerialized(HOTELS_PATH, form);
    UrlQuery.ParseSerialize(form);
  }

  /** Each field of the form is found under its own name. */
  lemma FormLookup(p: SearchParams)
    ensures UrlQuery.Get(FormParams(p), "checkIn") == Some(p.checkIn)
    ensures UrlQuery.Get(FormParams(p), "checkOut") == Some(p.checkOut)
    ensures UrlQuery.Get(FormParams(p), "city") == Some(p.city)
    ensures UrlQuery.Get(FormParams(p), "name") == Some(p.name)
    ensures UrlQuery.Get(FormParams(p), "starRating") == Some(p.starRating)
    ensures UrlQuery.Get(FormParams(p), "priceRange") == Some(p.priceRange)
  {
    var form := FormParams(p);
    assert forall j, k :: 0 <= j < k < |form| ==> form[j].0 != form[k].0;
    UrlQuery.GetDistinct(form, 0);
    UrlQuery.GetDistinct(form, 1);
    UrlQuery.GetDistinct(form, 2);
    UrlQuery.GetDistinct(form, 3);
    UrlQuery.GetDistinct(form, 4);
    UrlQuery.GetDistinct(form, 5);
  }

  /**
   * What the page gets back: the request or the JSON parse failed, or a JSON
   * body with an optional `error` and an optional `availableHotels`.
   */
  datatype ServerReply = FetchFailed | ReplyBody(error: Option<string>, availableHotels: Option<seq<Hotel>>)

  /** The hotels endpoint's answer as the page receives it. */
  function ReplyOf(r: HotelsRoute.GetResponse): ServerReply {
    match r
    case Found(hotels) => ReplyBody(None, Some(hotels))
    case GetError(_, error) => ReplyBody(Some(error), None)
  }

  datatype PageState = PageState(hotels: seq<Hotel>, error: string, loading: bool)

  const FETCH_FAILED: string := "Failed to fetch hotels."

  /** The hotels the page shows for a server list: those with an available room type, in server order. */
  function Displayed(hotels: seq<Hotel>, checkIn: string, checkOut: string, avail: Availability): (shown: seq<Hotel>)
    ensures |shown| <= |hotels|
    ensures forall i :: 0 <= i < |shown| ==> AnyRoomAvailable(shown[i].roomTypes, checkIn, checkOut, avail)
  {
    Filter(hotels, (h: Hotel) => AnyRoomAvailable(h.roomTypes, checkIn, checkOut, avail))
  }

  /**
   * `fetchHotels`: sends the form as the query, then updates the page with
   * the reply (see `ShowReply`), checking availability for the dates that
   * were sent.
   */
  method FetchHotels(st: PageState, params: SearchParams, reply: ServerReply, avail: Availability)
    returns (st': PageState, sent: HotelsRoute.Query)
    ensures sent == QueryOf(params)
    ensures !st'.loading
    ensures reply.ReplyBody? && Truthy(reply.error) ==> st' == PageState(st.hotels, reply.error.value, false)
    ensures (reply.FetchFailed? || (!Truthy(reply.error) && reply.availableHotels.None?))
      ==> st' == PageState(st.hotels, FETCH_FAILED, false)
    ensures reply.ReplyBody? && !Truthy(reply.error) && reply.availableHotels.Some?
      ==> st' == PageState(Displayed(reply.availableHotels.value, sent.checkIn.value, sent.checkOut.value, avail), "", false)
  {
    sent := QueryOf(params);
    st' := ShowReply(st, params.checkIn, params.checkOut, reply, avail);
  }

  /**
   * The rest of `fetchHotels`: shows the server's error (keeping the list),
   * or replaces the list by the available hotels. A failed request, or a body
   * with neither a truthy `error` nor `availableHotels`, lands in the `catch`
   * and shows the fixed failure text.
   */
  method ShowReply(st: PageState, checkIn: string, checkOut: string, reply: ServerReply, avail: Availability)
    returns (st': PageState)
    ensures !st'.loading
    ensures reply.ReplyBody? && Truthy(reply.error) ==> st' == PageState(st.hotels, reply.error.value, false)
    ensures (reply.FetchFailed? || (!Truthy(reply.error) && reply.availableHotels.None?))
      ==> st' == PageState(st.hotels, FETCH_FAILED, false)
    ensures reply.ReplyBody? && !Truthy(reply.error) && reply.availableHotels.Some?
      ==> st' == PageState(Displayed(reply.availableHotels.value, checkIn, checkOut, avail), "", false)
  {
    if reply.FetchFailed? {
      return PageState(st.hotels, FETCH_FAILED, false);
    }
    if Truthy(reply.error) {
      return PageState(st.hotels, reply.error.value, false);
    }
    if reply.availableHotels.None? {
      return PageState(st.hotels, FETCH_FAILED, false);
    }
    var hotels := reply.availableHotels.value;
    ghost var p := (h: Hotel) => AnyRoomAvailable(h.roomTypes, checkIn, checkOut, avail);
    var kept: seq<Hotel> := [];
    var i := 0;
    while i < |hotels|
      invariant 0 <= i <= |hotels|
      invariant kept == Filter(hotels[..i], p)
    {
      var available := CheckRoomAvailability(hotels[i].roomTypes, checkIn, checkOut, avail);
      FilterSnoc(hotels[..i], hotels[i], p);
      assert hotels[..i + 1] == hotels[..i] + [hotels[i]];
      if available {
        kept := kept + [hotels[i]];
      }
      i := i + 1;
    }
    assert hotels[..i] == hotels;
    return PageState(kept, "", false);
  }

  /**
   * What the page shows is exactly the server's hotels that have an
   * available room type, in the server's order, each as often as the server
   * sent it.
   */
  lemma DisplayedExactly(hotels: seq<Hotel>, checkIn: string, checkOut: string, avail: Availability, x: Hotel)
    ensures x in Displayed(hotels, checkIn, checkOut, avail) <==> x in hotels && AnyRoomAvailable(x.roomTypes, checkIn, checkOut, avail)
    ensures IsSubsequence(Displayed(hotels, checkIn, checkOut, avail), hotels)
    ensures x in hotels && AnyRoomAvailable(x.roomTypes, checkIn, checkOut, avail)
      ==> multiset(Displayed(hotels, checkIn, checkOut, avail))[x] == multiset(hotels)[x]
  {
    var p := (h: Hotel) => AnyRoomAvailable(h.roomTypes, checkIn, checkOut, avail);
    FilterMembership(hotels, p, x);
    FilterKeepsExactly(hotels, p);
  }

  /**
   * End to end: when the endpoint answers the page's own query, every hotel
   * shown has the searched city, name and rating, only room types within the
   * price range, and a room type with a free room for the searched dates.
   */
  lemma SearchShowsOnlyMatchingAvailable(catalog: seq<Hotel>, params: SearchParams, avail: Availability, x: Hotel)
    requires HotelsRoute.QueryComplete(QueryOf(params))
    requires HotelsRoute.WellFormedRange(params.priceRange)
    ensures var found := HotelsRoute.Get(catalog, QueryOf(params)).availableHotels;
      var (lo, hi) := HotelsRoute.PriceBounds(params.priceRange);
      x in Displayed(found, params.checkIn, params.checkOut, avail) ==>
        && x.city == params.city && x.name == params.name
        && Some(x.starRating) == ParseInt(params.starRating)
        && (forall rt :: rt in x.roomTypes ==> lo <= rt.pricePerNight <= hi)
        && AnyRoomAvailable(x.roomTypes, params.checkIn, params.checkOut, avail)
  {
    var q := QueryOf(params);
    var found := HotelsRoute.Get(catalog, q).availableHotels;
    DisplayedExactly(found, params.checkIn, params.checkOut, avail, x);
    HotelsRoute.GetReturnsExactlyMatches(catalog, q, x);
  }

  /** A blank city makes the endpoint refuse the query; the page shows its error and keeps its list. */
  lemma BlankCityShowsError(catalog: seq<Hotel>, params: SearchParams)
    requires params.city == ""
    ensures ReplyOf(HotelsRoute.Get(catalog, QueryOf(params))) == ReplyBody(Some(HotelsRoute.INVALID_FIELD), None)
  {
  }

  // ---------------------------------------------------------------------------
  // Starting price

  /** A price or `Infinity`, the start value of the `reduce`. */
  datatype Extended = Infinity | Finite(value: int)

  predicate AtMost(a: Extended, b: Extended) {
    b.Infinity? || (a.Finite? && a.value <= b.value)
  }

  /** `Math.min(acc, price)`. */
  function Min(acc: Extended, price: int): Extended {
    if acc.Finite? && acc.value <= price then acc else Finite(price)
  }

  /**
   * `roomTypes.reduce((min, rt) => Math.min(min, rt.pricePerNight), acc)`:
   * no more than `acc` or any price, and equal to `acc` or to one of the prices.
   */
  function ReducePrices(roomTypes: seq<RoomType>, acc: Extended): (m: Extended)
    ensures AtMost(m, acc)
    ensures forall i :: 0 <= i < |roomTypes| ==> AtMost(m, Finite(roomTypes[i].pricePerNight))
    ensures m == acc || exists i :: 0 <= i < |roomTypes| && m == Finite(roomTypes[i].pricePerNight)
  {
    if |roomTypes| == 0 then acc
    else
      var m := ReducePrices(roomTypes[1..], Min(acc, roomTypes[0].pricePerNight));
      assert forall i :: 1 <= i < |roomTypes| ==> roomTypes[i] == roomTypes[1..][i - 1];
      m
  }

  datatype PriceLabel = NotAvailable | StartingAt(price: int)

  /**
   * The card's "Starting Price": the cheapest room type's price per night,
   * "Not Available" when the hotel has no room types.
   */
  function StartingPrice(roomTypes: seq<RoomType>): (shown: PriceLabel)
    ensures shown.NotAvailable? <==> |roomTypes| == 0
    ensures shown.StartingAt? ==> forall i :: 0 <= i < |roomTypes| ==> shown.price <= roomTypes[i].pricePerNight
    ensures shown.StartingAt? ==> exists i :: 0 <= i < |roomTypes| && roomTypes[i].pricePerNight == shown.price
  {
    if |roomTypes| > 0 then StartingAt(ReducePrices(roomTypes, Infinity).value) else NotAvailable
  }
}
