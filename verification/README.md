# FlyNext booking cancellation and hotel search, in Dafny

This project models three pieces of decision logic from the FlyNext travel
application.

- **The combined booking cancellation endpoint** (`POST /api/backend/booking/cancel`).
  - It runs a chain of request checks, then a flight leg:
    - a cancellation call to the remote flight system (AFS);
    - a local status write;
    - a user notification.
  - Then it runs a hotel leg (a local status write).
  - When both legs were requested, it finishes with the parent booking (a status write and a notification).
  - The route is a pure transition `CancelRoute.Cancel`. Its inputs are a store of users, bookings, flight bookings and hotel bookings, plus the answers of the outside world: the token check, the flight system's HTTP reply and the two notification replies. Its output is the response, the new store and the ordered log of effects.
- **The hotels endpoint** (`/api/hotels`).
  - `POST` checks the required fields, writes the logo and image uploads, and creates a hotel with the parsed star rating.
  - `GET` validates the search query and matches city, name and star rating exactly. It narrows each hotel's room types to the price window and drops hotels left without room types.
  - The hotel table is a sequence, and `findMany` is a filter over it.
- **The visitor search page.**
  - `fetchHotels` sends the form as the query and keeps the returned hotels that have a room type with a free room for the searched dates, in server order.
  - `checkRoomAvailability` is the existential test used for that.
  - The card shows the starting price, the minimum price per night.

The JavaScript behaviour the code relies on is modelled in `JsText`:
- truthiness of optional string fields;
- `parseInt(s, 10)`;
- `split` on one character.

`UrlQuery` models the query string between the page and the endpoint: `URLSearchParams.toString()` on the page, and the endpoint's `new URL(request.url).searchParams.get`. Both follow the application/x-www-form-urlencoded serializer and parser of the WHATWG URL Standard.

`Subsequences` holds the stable `filter` used by the hotels endpoint and the search page, with lemmas stating exact membership, multiplicities and order.

Files:
- `wrappers.dfy`: `Option`.
- `js_text.dfy`: `JsText`.
- `subsequences.dfy`: `Subsequences`.
- `url_query.dfy`: `UrlQuery`.
- `booking_store.dfy`: `BookingStore`, the records of the cancellation route.
- `cancel_route.dfy`: `CancelRoute`.
- `hotel_catalog.dfy`: `HotelCatalog`, the hotel and room type records.
- `hotels_route.dfy`: `HotelsRoute`.
- `visitor_search.dfy`: `VisitorSearch`.

Inputs that stand for the outside world:
- the token check is an `Auth` value;
- the flight system's reply is an `HttpReply`;
- each notification reply is a `NotifyReply`;
- an unreadable request body is `None`;
- the id the database assigns to a new hotel is a parameter;
- the availability helper `findAvailability` is an uninterpreted function parameter.

## Model

| member | source | states |
|---|---|---|
| CancelRoute.CancelAfsFlight | my-app/app/api/backend/booking/cancel/route.js:10-31 | An unreachable flight system throws. The result is `null` exactly for a non-2xx status other than 400. A 400 or 2xx reply with a JSON body is parsed to that body, whatever JSON value it is. |
| CancelRoute.VerdictOf | my-app/app/api/backend/booking/cancel/route.js:92-101 | A thrown call crashes. A `null` result or any other falsy JSON value is a transport failure. A truthy `error` property, string or not, is a rejection carrying that value as it is. Any other truthy body confirms and is kept as the confirmation. |
| CancelRoute.VerdictByStatus | my-app/app/api/backend/booking/cancel/route.js:23-30 | Each verdict, characterised by HTTP status and body in both directions. A rejection is a 400 or 2xx truthy JSON body with a truthy `error`, and carries it verbatim. A transport failure is a non-2xx, non-400 status, or a 400 or 2xx reply whose JSON is falsy. A confirmation is a 400 or 2xx truthy JSON body without a truthy `error`. A crash is an unreachable system or a 400 or 2xx body that is not JSON. |
| CancelRoute.RequestCheck | my-app/app/api/backend/booking/cancel/route.js:37-58 | The token-and-body checks pass exactly when the caller is authenticated with role USER or ADMIN and the body is readable, names a booking and names at least one component. Every refusal is a 400, 401, 403 or 500. |
| CancelRoute.OwnershipCheck | my-app/app/api/backend/booking/cancel/route.js:59-78 | The store checks pass exactly when the caller exists, the booking exists and the booking belongs to the caller. Every refusal is a 403 or 404. |
| CancelRoute.NoticeFailure | my-app/app/api/backend/booking/cancel/route.js:106-117 | A notification fails the request exactly when it is unreachable or its reply carries a non-empty `error`. An unreachable service gives 500 "Server error". A non-empty `error` is returned with 404. |
| CancelRoute.FlightLeg | my-app/app/api/backend/booking/cancel/route.js:82-125 | For the flight leg: a missing record halts with the server error before any call. The remote call goes first, with the booking's reference and the caller's last name. The store changes only on confirmation, and only to mark that flight CANCELLED. The leg completes exactly when the record exists, the flight system confirms and the notification (sent only for a non-empty caller id) does not fail. |
| CancelRoute.HotelLeg | my-app/app/api/backend/booking/cancel/route.js:127-139 | The hotel leg completes exactly when the record exists. It writes only that record's status, to CANCELLED, and reports the updated record. A missing record is the server error with nothing written. |
| CancelRoute.ParentLeg | my-app/app/api/backend/booking/cancel/route.js:141-160 | The parent booking is written CANCELLED first. The leg completes exactly when no notification is sent or it does not fail. |
| CancelRoute.Cancel | my-app/app/api/backend/booking/cancel/route.js:33-171 | An unauthenticated caller gets 401 and a wrong role gets 403, with nothing called or written. Users are never written. An outcome with no effect leaves the store as it was. Effects always happen in the saga's order: remote call, flight write, flight notice, hotel write, parent write, trip notice. |
| CancelRoute.AfterFlight | my-app/app/api/backend/booking/cancel/route.js:127-166 | After the flight leg, the rest of the route never writes users or flights and keeps the saga order of the effects. |
| CancelRoute.Finish | my-app/app/api/backend/booking/cancel/route.js:141-166 | The final step writes neither users, flights nor hotels, and keeps the saga order. |
| CancelRoute.RequestRejections | my-app/app/api/backend/booking/cancel/route.js:45-58 | An unreadable body gets 500. A missing booking id and missing component ids get their 400 messages. In each case nothing is called or written, and the answer does not depend on the store. |
| CancelRoute.OwnershipRejections | my-app/app/api/backend/booking/cancel/route.js:59-78 | An unknown caller gets 404 "Wrong user", an unknown booking gets 404 "Booking not found" and someone else's booking gets 403 "Forbidden". Each comes before any call or write. |
| CancelRoute.MissingFlightRecord | my-app/app/api/backend/booking/cancel/route.js:82-91 | A flight id naming no record ends in the 500 server error before the flight system is called, with nothing written. |
| CancelRoute.RemoteFailureChangesNothing | my-app/app/api/backend/booking/cancel/route.js:88-101 | A remote rejection is answered 400 with the remote message verbatim, and a transport failure 500 "AFS Cancellation Error". Neither changes the store, and the remote call is the only effect. |
| CancelRoute.FlightWrittenOnlyOnConfirmation | my-app/app/api/backend/booking/cancel/route.js:82-105 | The flight bookings change exactly when every check passed, a flight id naming a record was given and the flight system confirmed. That flight is then CANCELLED, even if the notification later fails. |
| CancelRoute.FlightFailureLeavesHotelUntouched | my-app/app/api/backend/booking/cancel/route.js:82-139 | When the flight leg does not run to its end, hotel bookings and bookings are unchanged and no hotel or parent write happens. |
| CancelRoute.FlightNoticeFailureAfterCommit | my-app/app/api/backend/booking/cancel/route.js:102-118 | A failed flight notification is returned as the response after the flight status was committed. The flight stays CANCELLED and the hotel bookings are untouched. |
| CancelRoute.HotelWrittenOnlyAfterFlightLeg | my-app/app/api/backend/booking/cancel/route.js:127-139 | The hotel bookings change exactly when every check passed, a hotel id naming a record was given, and the flight leg (if requested) ran to its end. Only that record changes, to CANCELLED. |
| CancelRoute.MissingHotelAfterFlightCommit | my-app/app/api/backend/booking/cancel/route.js:128-139 | A hotel id naming no record after a completed flight leg gives the 500 server error. The flight stays CANCELLED and the parent booking is untouched. |
| CancelRoute.ParentCancelledIffBothLegs | my-app/app/api/backend/booking/cancel/route.js:141-146 | The parent booking becomes CANCELLED exactly when both component ids were given and both legs completed. Otherwise the bookings are unchanged. |
| CancelRoute.FinishSucceeds | my-app/app/api/backend/booking/cancel/route.js:141-166 | The final step answers 200 exactly when the final notification, if sent, does not fail. A 200 carries "Cancellation processed" and the results it was given. |
| CancelRoute.AfterFlightSucceeds | my-app/app/api/backend/booking/cancel/route.js:127-166 | After the flight leg, the route answers 200 exactly when the hotel record (if requested) exists and the final notification does not fail. The 200 reports the updated hotel record, or null when no hotel id was given. |
| CancelRoute.SucceedsIffEveryStep | my-app/app/api/backend/booking/cancel/route.js:80-166 | The request succeeds exactly when every check passes, every requested leg completes and the final notification does not fail. The success payload is "Cancellation processed", with the flight system's confirmation (or null) and the updated hotel booking (or null). |
| CancelRoute.OnlyNamedRecordsChange | my-app/app/api/backend/booking/cancel/route.js:102-146 | Only the three named records can change, only in their status and only to CANCELLED. Users and key sets are unchanged, and an absent component id touches nothing of its kind. |
| HotelsRoute.Post | my-app/app/api/hotels/route.js:7-94 | An unreadable body gets 500. An incomplete form gets 400 "Invalid Field" before any file or hotel is written. A hotel is created exactly when the form is complete, images are present and the rating parses. Then it is appended with the form's fields and the parsed rating, the logo file is written first, and one image path per input image follows in input order. Files are never removed. |
| HotelsRoute.FormComplete | my-app/app/api/hotels/route.js:38 | A complete form has every required field present, and a star rating that is neither 0 nor "". `images` is not among the required fields. |
| HotelsRoute.PostStoresParsedRating | my-app/app/api/hotels/route.js:76 | A rating sent as the decimal text of a safe integer `n` (at most 2^53 - 1 in magnitude), possibly followed by text that does not continue the number, is stored as `n`. |
| HotelsRoute.QueryComplete | my-app/app/api/hotels/route.js:104-119 | A complete query has a non-empty city and name, a price range and a star rating that contains a digit. The dates play no part. |
| HotelsRoute.PriceBounds | my-app/app/api/hotels/route.js:109-137 | The lower bound is the value of the digits before the first '-'. The upper bound is the value of the digits between it and the next '-' or the end. |
| HotelsRoute.PriceRangeOfPrinted | my-app/app/api/hotels/route.js:135-137 | For "a-b", split on '-', the lower bound is `a` and the upper bound is `b`. |
| HotelsRoute.Narrow | my-app/app/api/hotels/route.js:130-143 | A hotel keeps every field but its room types, which become exactly those priced within the inclusive window. |
| HotelsRoute.FindMany | my-app/app/api/hotels/route.js:121-145 | Returns no more hotels than the table holds. Each has the queried city, name and rating, and keeps only room types inside the inclusive price window. A hotel is returned exactly when it is a table hotel with the queried city, name and rating, narrowed to the window, even when no room type is left. |
| HotelsRoute.Get | my-app/app/api/hotels/route.js:101-159 | A query is refused with 400 "Invalid Field" exactly when city, name, a non-zero numeric rating or the price range is missing. Every returned hotel has a room type, and no more hotels are returned than the table holds. |
| HotelsRoute.PipelineIsScan | my-app/app/api/hotels/route.js:121-147 | The query pipeline (filter by fields, narrow rooms, drop hotels without rooms) equals a one-pass scan of the table. |
| HotelsRoute.GetIsScan | my-app/app/api/hotels/route.js:121-151 | A complete query returns exactly the one-pass scan: the matching hotels with a room type in the window, narrowed, in table order. |
| HotelsRoute.ScanMembership | my-app/app/api/hotels/route.js:147 | A hotel is in the scan exactly when it is some matching table hotel narrowed to the window with a room type left. |
| HotelsRoute.GetReturnsExactlyMatches | my-app/app/api/hotels/route.js:121-151 | A hotel is returned exactly when it is a table hotel with the queried city, name and rating, narrowed to its room types in the window, with at least one left. |
| HotelsRoute.GetIgnoresDates | my-app/app/api/hotels/route.js:111-114 | The check-in and check-out parameters never influence the answer. |
| HotelsRoute.ZeroOrNonNumericRatingRefused | my-app/app/api/hotels/route.js:108-119 | A star rating of "0", or one with no digit, is refused like a missing one. |
| JsText.ParseIntOfPrinted | my-app/app/api/hotels/route.js:108 | `parseInt` reads back any printed safe integer (at most 2^53 - 1 in magnitude), whatever non-digit text follows it. |
| JsText.ParseInt | my-app/app/api/hotels/route.js:76 | A number is produced only when the text holds a digit. Partnered with `ParseIntOfPrinted` (the round trip) and `ParseIntWithoutDigits` (NaN). |
| JsText.ParseIntWithoutDigits | my-app/app/api/hotels/route.js:108 | A string without digits parses to NaN. |
| JsText.Split | my-app/app/api/hotels/route.js:109 | Splitting yields at least one piece, and no piece contains the separator. |
| JsText.JoinSplit | my-app/app/api/hotels/route.js:109 | Joining the pieces of a split with the separator gives back the original string. |
| Subsequences.Filter | my-app/app/api/hotels/route.js:147 | The filtered list is no longer than the input, and every element in it satisfies the predicate. `FilterKeepsExactly` gives the rest. |
| Subsequences.FilterKeepsExactly | my-app/app/api/hotels/route.js:147 | `filter` keeps every element satisfying the predicate as often as it occurs, only elements of the input, in input order. |
| Subsequences.FilterMembership | my-app/app/hotels/hotel_visitor/page.tsx:51 | An element is in the filtered list exactly when it is in the input and satisfies the predicate. |
| VisitorSearch.CheckRoomAvailability | my-app/app/hotels/hotel_visitor/page.tsx:62-70 | Returns true exactly when some room type has a free room for the dates. A hotel without room types is unavailable. |
| VisitorSearch.QueryOf | my-app/app/hotels/hotel_visitor/page.tsx:34-36 | The query the endpoint reads from the page's request URL has every form field present with its exact value, blank ones as "", whatever characters they hold. So the endpoint receives the page's check-in and check-out dates exactly. |
| VisitorSearch.FormArrives | my-app/app/hotels/hotel_visitor/page.tsx:34-36 | The endpoint's parse of the requested URL's query gives back exactly the six pairs of the form, in order. |
| VisitorSearch.FormLookup | my-app/app/hotels/hotel_visitor/page.tsx:11-18 | The form's six names are all different, so each `get` finds that field's value. |
| UrlQuery.Encode | my-app/app/hotels/hotel_visitor/page.tsx:34 | An encoded name or value never holds '&', '=' or '#', so it cannot split a pair, end a name or end the query. |
| UrlQuery.DecodeEncode | my-app/app/hotels/hotel_visitor/page.tsx:34 | Percent-decoding undoes the serializer's encoding, for every string. |
| UrlQuery.ParseSerialize | my-app/app/hotels/hotel_visitor/page.tsx:34 | Parsing the serialised pairs gives back every pair, in order, with its name and value intact. The empty list serialises to "" and parses back to no pairs. |
| UrlQuery.Get | my-app/app/api/hotels/route.js:104-109 | `get` is null exactly when no pair has the name. Otherwise it is the value of the first pair with that name. |
| UrlQuery.GetDistinct | my-app/app/api/hotels/route.js:104-109 | When all names differ, `get` of each pair's name gives that pair's value. |
| UrlQuery.SearchOfSerialized | my-app/app/hotels/hotel_visitor/page.tsx:36 | A path without '?', then '?' and a serialised query, has exactly that query: no '#' in it cuts it short. |
| VisitorSearch.FetchHotels | my-app/app/hotels/hotel_visitor/page.tsx:31-59 | The query sent is the one `QueryOf` reads back from the form. A reply with an error shows it and keeps the list. A failed fetch, or a reply with neither an error nor hotels, shows "Failed to fetch hotels." and keeps the list. Otherwise the list becomes the returned hotels with an available room type, filtered with the dates that were sent. Loading is over at the end. |
| VisitorSearch.ShowReply | my-app/app/hotels/hotel_visitor/page.tsx:37-59 | A reply with a truthy error shows it and keeps the list. A failed fetch, or a reply with neither an error nor hotels, shows "Failed to fetch hotels." and keeps the list. Otherwise the list becomes exactly `Displayed` of the returned hotels for the given dates. Loading is over at the end. |
| VisitorSearch.Displayed | my-app/app/hotels/hotel_visitor/page.tsx:43-51 | The shown list is no longer than the server's, and every shown hotel has a room type with a free room for the dates. |
| VisitorSearch.DisplayedExactly | my-app/app/hotels/hotel_visitor/page.tsx:43-51 | The displayed hotels are exactly the server's available hotels, each as often as sent, as a subsequence of the server's order. |
| VisitorSearch.SearchShowsOnlyMatchingAvailable | my-app/app/hotels/hotel_visitor/page.tsx:31-51 | Against the endpoint, every displayed hotel has the searched city, name and rating, only room types in the price window, and a free room for the searched dates. |
| VisitorSearch.BlankCityShowsError | my-app/app/hotels/hotel_visitor/page.tsx:34-40 | A blank city makes the endpoint answer "Invalid Field" with no hotels, so the page shows that error. |
| VisitorSearch.ReducePrices | my-app/app/hotels/hotel_visitor/page.tsx:140 | The `reduce` with `Math.min` from Infinity is at most every price and the start value, and equals one of them. |
| VisitorSearch.StartingPrice | my-app/app/hotels/hotel_visitor/page.tsx:138-141 | The starting price is "Not Available" exactly when there are no room types. Otherwise it is at most every price per night and equal to one of them. |

## Notable behaviour of the code

- A failed notification fails the request after the statuses before it were already written. It is answered with its `error` (404), or with 500 when the notification service is unreachable. The flight notice comes after the flight write; the trip notice comes after the flight, hotel and parent writes (`CancelRoute.FlightNoticeFailureAfterCommit`).
- Every non-2xx status from the flight system other than 400 becomes `null`, whatever the body, and the route answers 500 "AFS Cancellation Error". A 400 or 2xx reply whose JSON is falsy is answered the same way. A 400 or 2xx reply whose body is not JSON throws and becomes the 500 server error. A 400 reply whose JSON has no truthy `error` is treated like a confirmation.
- The search matches the star rating exactly, and city and name too.
- Cancelling a hotel booking writes only its status; no room calendar is touched.

## Left out

- File contents and names in hotel `POST`: the base64 prefix stripping and decoding, directory creation, and the `Date.now()` time stamp in upload names. Uploads are recorded as `(LogoUpload | ImageUpload(i), content)`.
- The hard-coded owner id of a created hotel (hotels route.js:78-82): a constant connection that no property depends on.
- `findAvailability` and the availability calendar: the helper is not part of this model and is an uninterpreted function parameter. No calendar change is modelled because the cancellation route makes none.
- Prices are integers. `parseFloat` bounds and `Decimal.toNumber` are not modelled.
- HotelsRoute.Get: requires that a complete query's price range has first two '-'-separated pieces that are non-empty digit strings ("50-300", "50-300-7"; not "50-300.5"). What the database does with `NaN` or `undefined` bounds ("abc", "50", "50-") is not modelled.
- HotelsRoute.Post: a star rating that parses to `NaN` is modelled as refused by the database (500), after the uploads were written. This assumes the database rejects a `NaN` integer.
- JsText.ParseInt: skips only ASCII white space, not the rest of the Unicode white space JavaScript skips. It returns the exact integer, where JavaScript rounds the value read to a double. So results beyond 2^53 in magnitude differ (`parseInt("9007199254740993")` is 9007199254740992), which is why `JsText.ParseIntOfPrinted` is stated for safe integers only.
- HotelsRoute.ParseScalar: a JSON number is read back unchanged. JavaScript does this only below 10^21 in magnitude (`parseInt(1e21)` is 1) and truncates a fraction. Only integers are modelled, and the width of the database's rating column is not modelled: a rating that does not fit it is not refused.
- The two 404 branches for a missing flight or hotel booking after `update` (cancel route.js:119-124 and 133-138) are unreachable. `update` on a missing id throws and lands in the 500 catch, and that is how it is modelled.
- A notification reply is one of delivered, refused with an error, or unreachable. A real `fetch` response has no `error` field, so in practice only the unreachable case fails a notification.
- `CancelRoute.Cancel` does not check that the flight and hotel booking ids belong to the named booking, because the code does not either.
- Logging (`console.log`, `console.error`), `NextResponse` and HTTP framing are not modelled: responses are a status and a payload datatype.
- Concurrency between overlapping requests: each request is modelled as one atomic transition over the store.
- The hotel owner pages, the room and availability routes, and the frontend copies of the pages are not part of this model. They render forms and lists, or belong to the availability calendar.
- VisitorSearch.QueryOf: a non-ASCII character passes through the model's encoder and decoder unchanged. The real serializer writes it as percent-encoded UTF-8 bytes and the parser decodes them back, so the round trip is the same. A `%XX` whose code is 0x80 or above decodes to that code point in the model, not as part of a UTF-8 sequence. The page never sends one.
- The URL's origin: the page requests a relative URL that the browser resolves against its own origin. Only the path and the query are modelled.
- React state: `setLoading(true)`/`setError("")` before the request are not modelled, only the state after `fetchHotels` finishes. The search form's input handling is not modelled either.
