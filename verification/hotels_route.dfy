/**
 * The hotels endpoint: POST creates a hotel from a form after checking its
 * required fields; GET validates a search query and returns the hotels that
 * match city, name and star rating exactly, each narrowed to its room types in
 * the requested price window, dropping hotels left without room types.
 */
module HotelsRoute {
  import opened Wrappers
  import opened JsText
  import opened Subsequences
  import opened HotelCatalog
  import UrlQuery

  const INVALID_FIELD: string := "Invalid Field"
  const INTERNAL_ERROR: string := "Internal server error"

  // ---------------------------------------------------------------------------
  // POST: create a hotel

  /** A JSON scalar as the form may send it: a string or an integer. */
  datatype Scalar = Text(text: string) | Number(number: int)

  /** A field is `None` when absent or `null`. */
  datatype HotelForm = HotelForm(
    name: Option<string>,
    logo: Option<string>,
    address: Option<string>,
    location: Option<string>,
    city: Option<string>,
    starRating: Option<Scalar>,
    images: Option<seq<string>>)

  /** A file written under `uploads/` with the (base64) content it was written from. */
  datatype SavedFile = SavedFile(path: UploadPath, content: string)

  datatype PostResponse = Created(hotel: Hotel) | PostError(status: int, error: string)

  /** The response, the hotel table and the files written so far. */
  datatype PostOutcome = PostOutcome(response: PostResponse, hotels: seq<Hotel>, files: seq<SavedFile>)

  predicate ScalarTruthy(v: Option<Scalar>) {
    v.Some? && match v.value
               case Text(t) => t != ""
               case Number(n) => n != 0
  }

  /**
   * `parseInt(v, 10)`. A number is modelled as read back unchanged, which is
   * what JavaScript does for integers below 10^21 in magnitude (above that
   * `String(v)` uses exponent notation).
   */
  function ParseScalar(v: Scalar): Option<int> {
    match v
    case Text(t) => ParseInt(t)
    case Number(n) => Some(n)
  }

  /** The required fields are all truthy (`images` is not among them). */
  predicate FormComplete(f: HotelForm)
    ensures FormComplete(f) ==>
      && f.name.Some? && f.logo.Some? && f.address.Some? && f.location.Some? && f.city.Some?
      && f.starRating.Some? && f.starRating.value != Number(0) && f.starRating.value != Text("")
  {
    && Truthy(f.name) && Truthy(f.logo) && Truthy(f.address)
    && Truthy(f.location) && Truthy(f.city) && ScalarTruthy(f.starRating)
  }

  function SavedImages(images: seq<string>): (saved: seq<SavedFile>)
    ensures |saved| == |images|
    ensures forall i :: 0 <= i < |images| ==> saved[i] == SavedFile(ImageUpload(i), images[i])
  {
    seq(|images|, i requires 0 <= i < |images| => SavedFile(ImageUpload(i), images[i]))
  }

  /** The paths `images.map` returns, one per image, numbered by position. */
  function ImagePaths(n: nat): (paths: seq<UploadPath>)
    ensures |paths| == n
    ensures forall i :: 0 <= i < n ==> paths[i] == ImageUpload(i)
  {
    seq(n, i requires 0 <= i < n => ImageUpload(i))
  }

  /**
   * POST /api/hotels. `form` is `None` when the body is not JSON; `newId` is
   * the id the database assigns. The logo is written first, then the images
   * (a missing `images` throws after the logo was written), then the hotel
   * is created; a star rating that parses to `NaN` is refused by the
   * database after the files were written.
   */
  function Post(hotels: seq<Hotel>, files: seq<SavedFile>, form: Option<HotelForm>, newId: string): (o: PostOutcome)
    ensures form.None? ==> o == PostOutcome(PostError(500, INTERNAL_ERROR), hotels, files)
    ensures form.Some? && !FormComplete(form.value) ==> o == PostOutcome(PostError(400, INVALID_FIELD), hotels, files)
    ensures o.response.Created? <==>
      form.Some? && FormComplete(form.value) && form.value.images.Some? && ParseScalar(form.value.starRating.value).Some?
    ensures !o.response.Created? ==> o.hotels == hotels
    ensures files <= o.files
    ensures o.response.Created? ==>
      var f := form.value;
      var h := o.response.hotel;
      && o.hotels == hotels + [h]
      && h.id == newId && h.name == f.name.value && h.address == f.address.value
      && h.location == f.location.value && h.city == f.city.value
      && h.starRating == ParseScalar(f.starRating.value).value
      && h.roomTypes == []
      && |h.images| == |f.images.value|
      && |o.files| == |files| + 1 + |f.images.value|
      && o.files[|files|] == SavedFile(h.logo, f.logo.value)
      && (forall i :: 0 <= i < |h.images| ==>
            h.images[i] == ImageUpload(i) && o.files[|files| + 1 + i] == SavedFile(h.images[i], f.images.value[i]))
  {
    if form.None? then PostOutcome(PostError(500, INTERNAL_ERROR), hotels, files)
    else
      var f := form.value;
      if !FormComplete(f) then PostOutcome(PostError(400, INVALID_FIELD), hotels, files)
      else
        var withLogo := files + [SavedFile(LogoUpload, f.logo.value)];
        if f.images.None? then PostOutcome(PostError(500, INTERNAL_ERROR), hotels, withLogo)
        else
          var saved := SavedImages(f.images.value);
          var withImages := withLogo + saved;
          var rating := ParseScalar(f.starRating.value);
          if rating.None? then PostOutcome(PostError(500, INTERNAL_ERROR), hotels, withImages)
          else
            var h := Hotel(newId, f.name.value, LogoUpload, f.address.value, f.location.value,
                           f.city.value, rating.value, ImagePaths(|saved|), []);
            assert forall i :: 0 <= i < |saved| ==> withImages[|files| + 1 + i] == saved[i];
            PostOutcome(Created(h), hotels + [h], withImages)
  }

  /**
   * A star rating sent as the decimal text of `n`, possibly followed by text
   * that does not continue the number ("4", "4 stars", "3.5"), is stored as `n`.
   */
  lemma PostStoresParsedRating(hotels: seq<Hotel>, files: seq<SavedFile>, form: HotelForm, newId: string, n: int, rest: string)
    requires FormComplete(form) && form.images.Some?
    requires -MAX_SAFE_INTEGER <= n <= MAX_SAFE_INTEGER
    requires form.starRating == Some(Text(IntToString(n) + rest))
    requires |rest| == 0 || !IsDigit(rest[0])
    ensures Post(hotels, files, Some(form), newId).response.Created?
    ensures Post(hotels, files, Some(form), newId).response.hotel.starRating == n
  {
    ParseIntOfPrinted(n, rest);
  }

  // ---------------------------------------------------------------------------
  // GET: search

  /** The search parameters; a parameter is `None` when absent from the URL. */
  datatype Query = Query(
    checkIn: Option<string>,
    checkOut: Option<string>,
    city: Option<string>,
    name: Option<string>,
    starRating: Option<string>,
    priceRange: Option<string>)

  /**
   * `new URL(request.url).searchParams`, then `get` of each parameter: the
   * first value the URL's query string gives that name, `None` when it gives none.
   */
  function QueryFromUrl(url: string): Query {
    var params := UrlQuery.Parse(UrlQuery.SearchOf(url));
    Query(
      UrlQuery.Get(params, "checkIn"), UrlQuery.Get(params, "checkOut"),
      UrlQuery.Get(params, "city"), UrlQuery.Get(params, "name"),
      UrlQuery.Get(params, "starRating"), UrlQuery.Get(params, "priceRange"))
  }

  datatype GetResponse = Found(availableHotels: seq<Hotel>) | GetError(status: int, error: string)

  /** `parseInt(searchParams.get("starRating"), 10)`: an absent parameter reads as `NaN`. */
  function RatingParam(q: Query): Option<int> {
    if q.starRating.None? then None else ParseInt(q.starRating.value)
  }

  /**
   * The query check. `checkIn` and `checkOut` are turned into `Date`
   * objects first, and an object is always truthy, so they are not checked;
   * a present `priceRange` splits into a non-empty array, so only its
   * absence is refused.
   */
  predicate QueryComplete(q: Query)
    ensures QueryComplete(q) ==>
      && Truthy(q.city) && Truthy(q.name) && q.priceRange.Some?
      && q.starRating.Some? && exists i :: 0 <= i < |q.starRating.value| && IsDigit(q.starRating.value[i])
  {
    && Truthy(q.city) && Truthy(q.name)
    && RatingParam(q).Some? && RatingParam(q).value != 0
    && q.priceRange.Some?
  }

  /** "min-max": the first two pieces of the split on '-' are decimal numbers. */
  predicate WellFormedRange(range: string) {
    var pieces := Split(range, '-');
    |pieces| >= 2 && |pieces[0]| > 0 && AllDigits(pieces[0]) && |pieces[1]| > 0 && AllDigits(pieces[1])
  }

  /**
   * `range` spelled out: the digits `lo`, a '-', the digits `hi`, then nothing
   * or a further '-' and anything.
   */
  predicate RangeSpelling(range: string, lo: string, hi: string, rest: string) {
    && range == lo + "-" + hi + rest
    && '-' !in lo && '-' !in hi && (|rest| == 0 || rest[0] == '-')
    && |lo| > 0 && AllDigits(lo) && |hi| > 0 && AllDigits(hi)
  }

  /**
   * The inclusive lower and upper price bounds: the number before the first
   * '-' and the number between it and the next '-' (or the end).
   */
  function PriceBounds(range: string): (bounds: (int, int))
    requires WellFormedRange(range)
    ensures exists lo, hi, rest :: RangeSpelling(range, lo, hi, rest) && bounds == (DigitsValue(lo), DigitsValue(hi))
  {
    var pieces := Split(range, '-');
    SplitFirstTwo(range, '-');
    var rest := AfterSecondPiece(pieces, '-');
    assert RangeSpelling(range, pieces[0], pieces[1], rest);
    (DigitsValue(pieces[0]), DigitsValue(pieces[1]))
  }

  /** "a-b" with `a` and `b` printed in decimal gives the bounds `a` and `b`. */
  lemma PriceRangeOfPrinted(a: nat, b: nat)
    ensures WellFormedRange(NatToString(a) + "-" + NatToString(b))
    ensures PriceBounds(NatToString(a) + "-" + NatToString(b)) == (a, b)
  {
    var da, db := NatToString(a), NatToString(b);
    SplitAfterPiece(da, '-', db);
    SplitWithoutSeparator(db, '-');
    assert Split(da + "-" + db, '-') == [da, db];
    DigitsValueOfNatToString(a);
    DigitsValueOfNatToString(b);
  }

  /** The `where` clause on the hotel: all three fields equal, as the check made them all present. */
  predicate Matches(h: Hotel, city: string, name: string, rating: int) {
    h.city == city && h.name == name && h.starRating == rating
  }

  predicate InPriceWindow(rt: RoomType, lo: int, hi: int) {
    lo <= rt.pricePerNight <= hi
  }

  /** The `include` clause: the hotel with only its room types priced within `[lo, hi]`, in order. */
  function Narrow(h: Hotel, lo: int, hi: int): (r: Hotel)
    ensures r == h.(roomTypes := r.roomTypes)
    ensures forall rt :: rt in r.roomTypes <==> rt in h.roomTypes && InPriceWindow(rt, lo, hi)
  {
    var rooms := Filter(h.roomTypes, rt => InPriceWindow(rt, lo, hi));
    forall rt ensures rt in rooms <==> rt in h.roomTypes && InPriceWindow(rt, lo, hi) {
      FilterMembership(h.roomTypes, rt => InPriceWindow(rt, lo, hi), rt);
    }
    h.(roomTypes := rooms)
  }

  function NarrowAll(hs: seq<Hotel>, lo: int, hi: int): (r: seq<Hotel>)
    ensures |r| == |hs|
    ensures forall i :: 0 <= i < |hs| ==> r[i] == Narrow(hs[i], lo, hi)
  {
    if |hs| == 0 then [] else [Narrow(hs[0], lo, hi)] + NarrowAll(hs[1..], lo, hi)
  }

  predicate HasRoomTypes(h: Hotel) {
    |h.roomTypes| > 0
  }

  /** `prisma.hotel.findMany` with the `where` and `include` clauses, in table order. */
  function FindMany(catalog: seq<Hotel>, city: string, name: string, rating: int, lo: int, hi: int): (r: seq<Hotel>)
    ensures |r| <= |catalog|
    ensures forall i :: 0 <= i < |r| ==>
      Matches(r[i], city, name, rating) && forall rt :: rt in r[i].roomTypes ==> InPriceWindow(rt, lo, hi)
    ensures forall x :: x in r <==>
      exists j :: 0 <= j < |catalog| && Matches(catalog[j], city, name, rating) && x == Narrow(catalog[j], lo, hi)
  {
    var m := h => Matches(h, city, name, rating);
    var matched := Filter(catalog, m);
    var r := NarrowAll(matched, lo, hi);
    forall x ensures x in r <==> exists j :: 0 <= j < |catalog| && m(catalog[j]) && x == Narrow(catalog[j], lo, hi) {
      if x in r {
        var i :| 0 <= i < |r| && r[i] == x;
        FilterMembership(catalog, m, matched[i]);
        var j :| 0 <= j < |catalog| && catalog[j] == matched[i];
      }
      if exists j :: 0 <= j < |catalog| && m(catalog[j]) && x == Narrow(catalog[j], lo, hi) {
        var j :| 0 <= j < |catalog| && m(catalog[j]) && x == Narrow(catalog[j], lo, hi);
        FilterMembership(catalog, m, catalog[j]);
        var i :| 0 <= i < |matched| && matched[i] == catalog[j];
        assert r[i] == x;
      }
    }
    r
  }

  /**
   * GET /api/hotels over the hotel table `catalog`. What the database does
   * with a price range that is not two numbers is not modelled, hence the
   * precondition.
   */
  function Get(catalog: seq<Hotel>, q: Query): (r: GetResponse)
    requires QueryComplete(q) ==> WellFormedRange(q.priceRange.value)
    ensures r.GetError? <==> !QueryComplete(q)
    ensures r.GetError? ==> r == GetError(400, INVALID_FIELD)
    ensures r.Found? ==> |r.availableHotels| <= |catalog|
    ensures r.Found? ==> forall i :: 0 <= i < |r.availableHotels| ==> HasRoomTypes(r.availableHotels[i])
  {
    if !QueryComplete(q) then GetError(400, INVALID_FIELD)
    else
      var (lo, hi) := PriceBounds(q.priceRange.value);
      var result := FindMany(catalog, q.city.value, q.name.value, RatingParam(q).value, lo, hi);
      Found(Filter(result, HasRoomTypes))
  }

  /**
   * Reference definition of the search, in one pass over the table: each
   * matching hotel, narrowed to its room types in the window, is kept in
   * table order when some room type is left.
   */
  function Scan(catalog: seq<Hotel>, city: string, name: string, rating: int, lo: int, hi: int): seq<Hotel> {
    if |catalog| == 0 then []
    else
      var h := Narrow(catalog[0], lo, hi);
      (if Matches(catalog[0], city, name, rating) && HasRoomTypes(h) then [h] else [])
        + Scan(catalog[1..], city, name, rating, lo, hi)
  }

  lemma {:induction false} PipelineIsScan(catalog: seq<Hotel>, city: string, name: string, rating: int, lo: int, hi: int)
    ensures Filter(FindMany(catalog, city, name, rating, lo, hi), HasRoomTypes) == Scan(catalog, city, name, rating, lo, hi)
  {
    if |catalog| > 0 {
      var m := h => Matches(h, city, name, rating);
      PipelineIsScan(catalog[1..], city, name, rating, lo, hi);
      FilterCons(catalog, m);
      var matched := Filter(catalog, m);
      if m(catalog[0]) {
        assert matched[0] == catalog[0] && matched[1..] == Filter(catalog[1..], m);
        var narrowed := NarrowAll(matched, lo, hi);
        FilterCons(narrowed, HasRoomTypes);
      }
    }
  }

  /**
   * The search answers with exactly the one-pass reference scan: the matching
   * hotels with at least one room type in the price window, in table order.
   */
  lemma GetIsScan(catalog: seq<Hotel>, q: Query)
    requires QueryComplete(q) && WellFormedRange(q.priceRange.value)
    ensures Get(catalog, q) ==
      Found(Scan(catalog, q.city.value, q.name.value, RatingParam(q).value,
                 PriceBounds(q.priceRange.value).0, PriceBounds(q.priceRange.value).1))
  {
    var (lo, hi) := PriceBounds(q.priceRange.value);
    PipelineIsScan(catalog, q.city.value, q.name.value, RatingParam(q).value, lo, hi);
  }

  /**
   * A hotel is in the scan exactly when it is some matching hotel of the
   * table narrowed to the window, with a room type left.
   */
  lemma {:induction false} ScanMembership(catalog: seq<Hotel>, city: string, name: string, rating: int, lo: int, hi: int, x: Hotel)
    ensures x in Scan(catalog, city, name, rating, lo, hi) <==>
      HasRoomTypes(x) && exists j :: 0 <= j < |catalog| && Matches(catalog[j], city, name, rating) && x == Narrow(catalog[j], lo, hi)
  {
    if |catalog| > 0 {
      ScanMembership(catalog[1..], city, name, rating, lo, hi, x);
      var h := Narrow(catalog[0], lo, hi);
      if x in Scan(catalog, city, name, rating, lo, hi) {
        if x == h && Matches(catalog[0], city, name, rating) && HasRoomTypes(h) {
        } else {
          var j :| 0 <= j < |catalog[1..]| && Matches(catalog[1..][j], city, name, rating) && x == Narrow(catalog[1..][j], lo, hi);
          assert catalog[1..][j] == catalog[j + 1];
        }
      }
      if HasRoomTypes(x) && exists j :: 0 <= j < |catalog| && Matches(catalog[j], city, name, rating) && x == Narrow(catalog[j], lo, hi) {
        var j :| 0 <= j < |catalog| && Matches(catalog[j], city, name, rating) && x == Narrow(catalog[j], lo, hi);
        if j > 0 {
          assert catalog[1..][j - 1] == catalog[j];
        }
      }
    }
  }

  /**
   * What a complete query returns, hotel by hotel: each returned hotel is a
   * hotel of the table with the queried city, name and rating, its other
   * fields intact and its room types exactly those in `[min, max]`, at least
   * one of them; and every such hotel is returned.
   */
  lemma GetReturnsExactlyMatches(catalog: seq<Hotel>, q: Query, x: Hotel)
    requires QueryComplete(q) && WellFormedRange(q.priceRange.value)
    ensures var lo := PriceBounds(q.priceRange.value).0;
      var hi := PriceBounds(q.priceRange.value).1;
      x in Get(catalog, q).availableHotels <==>
        && HasRoomTypes(x)
        && (forall rt :: rt in x.roomTypes ==> InPriceWindow(rt, lo, hi))
        && exists j :: 0 <= j < |catalog|
             && catalog[j].city == q.city.value && catalog[j].name == q.name.value
             && catalog[j].starRating == RatingParam(q).value
             && x == Narrow(catalog[j], lo, hi)
  {
    var (lo, hi) := PriceBounds(q.priceRange.value);
    GetIsScan(catalog, q);
    ScanMembership(catalog, q.city.value, q.name.value, RatingParam(q).value, lo, hi, x);
  }

  /** `checkIn` and `checkOut` never influence the answer. */
  lemma GetIgnoresDates(catalog: seq<Hotel>, q: Query, checkIn: Option<string>, checkOut: Option<string>)
    requires QueryComplete(q) ==> WellFormedRange(q.priceRange.value)
    ensures Get(catalog, q) == Get(catalog, q.(checkIn := checkIn, checkOut := checkOut))
  {
  }

  /** A star rating of 0, or one that is not a number, is refused like a missing one. */
  lemma ZeroOrNonNumericRatingRefused(catalog: seq<Hotel>, q: Query)
    requires QueryComplete(q) ==> WellFormedRange(q.priceRange.value)
    requires q.starRating.Some?
    requires q.starRating.value == "0" || forall i :: 0 <= i < |q.starRating.value| ==> !IsDigit(q.starRating.value[i])
    ensures Get(catalog, q) == GetError(400, INVALID_FIELD)
  {
    if q.starRating.value == "0" {
      ParseIntOfPrinted(0, "");
      assert IntToString(0) + "" == "0";
    } else {
      ParseIntWithoutDigits(q.starRating.value);
    }
  }
}
