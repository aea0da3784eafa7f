/**
 * The combined booking cancellation endpoint: a chain of request checks, then
 * the flight leg (remote cancellation at the flight system, local status
 * write, notification), then the hotel leg (local status write), then the
 * parent booking (status write, notification) when both legs were requested.
 *
 * The route is modelled as a pure transition from a store and the answers of
 * the outside world (token check, flight system reply, notification replies)
 * to a response, the new store, and the log of the effects in the order they
 * happen.
 */
module CancelRoute {
  import opened Wrappers
  import opened JsText
  import opened BookingStore

  // ---------------------------------------------------------------------------
  // The remote flight system

  /**
   * A JSON value as far as the route looks at it: a string, or any other
   * value (number, boolean, object, array, `null`) with its serialisation
   * and its truthiness.
   */
  datatype JsonValue = JsonText(text: string) | JsonOther(json: string, truthy: bool)

  predicate ValueTruthy(v: Option<JsonValue>) {
    v.Some? && match v.value
               case JsonText(t) => t != ""
               case JsonOther(_, truthy) => truthy
  }

  /**
   * The parsed JSON body of a flight system reply. A falsy value (`null`,
   * `false`, `0`, "") has no fields; any other value has an optional `error`
   * property (`None` when absent, as for every non-object) and its remaining
   * content `details`.
   */
  datatype AfsBody = FalsyJson | TruthyJson(error: Option<JsonValue>, details: string)

  /**
   * What `fetch` yields: a network failure (the promise rejects), or an HTTP
   * status with a body that is JSON (`Some`) or not (`None`).
   */
  datatype HttpReply = Unreachable | Reply(status: int, body: Option<AfsBody>)

  /** What `cancelAFSFlight` resolves to: `null`, a parsed body, or an exception. */
  datatype AfsResult = NullResult | Parsed(body: AfsBody) | Threw

  predicate IsOk(status: int) {
    200 <= status <= 299
  }

  /**
   * `cancelAFSFlight`: a 400 reply is read as JSON (the flight system's
   * business rejection), any other non-2xx reply becomes `null`, and a 2xx
   * reply is read as JSON. Reading a body that is not JSON throws.
   */
  function CancelAfsFlight(reply: HttpReply): (r: AfsResult)
    ensures reply.Unreachable? ==> r.Threw?
    ensures r.NullResult? <==> reply.Reply? && reply.status != 400 && !IsOk(reply.status)
    ensures r.Parsed? ==> reply.Reply? && reply.body == Some(r.body)
    ensures reply.Reply? && (reply.status == 400 || IsOk(reply.status)) && reply.body.Some? ==> r.Parsed?
  {
    match reply
    case Unreachable => Threw
    case Reply(status, body) =>
      if status == 400 then ReadJson(body)
      else if !IsOk(status) then NullResult
      else ReadJson(body)
  }

  function ReadJson(body: Option<AfsBody>): AfsResult {
    if body.Some? then Parsed(body.value) else Threw
  }

  /** How the route reads the result of `cancelAFSFlight`. */
  datatype Verdict = Rejected(message: JsonValue) | TransportFailure | Confirmed(body: AfsBody) | Crashed

  /**
   * `flightCancelRes?.error` first: a truthy `error` is a rejection carrying
   * that value as it is; then `!flightCancelRes`: `null` and every other falsy
   * body are a transport failure; anything else confirms.
   */
  function VerdictOf(r: AfsResult): (v: Verdict)
    ensures v.Crashed? <==> r.Threw?
    ensures v.TransportFailure? <==> r.NullResult? || r == Parsed(FalsyJson)
    ensures v.Rejected? <==> r.Parsed? && r.body.TruthyJson? && ValueTruthy(r.body.error)
    ensures v.Rejected? ==> Some(v.message) == r.body.error
    ensures v.Confirmed? ==> r == Parsed(v.body) && v.body.TruthyJson? && !ValueTruthy(v.body.error)
  {
    match r
    case Threw => Crashed
    case NullResult => TransportFailure
    case Parsed(FalsyJson) => TransportFailure
    case Parsed(body) => if ValueTruthy(body.error) then Rejected(body.error.value) else Confirmed(body)
  }

  /**
   * The verdict by HTTP status: a rejection is a 400 or 2xx JSON body with a
   * truthy `error` and carries that value as it is; a transport failure is a
   * non-2xx status other than 400, or a 400 or 2xx reply whose JSON is falsy;
   * a confirmation is a 400 or 2xx reply with a truthy JSON body without a
   * truthy `error`.
   */
  lemma VerdictByStatus(reply: HttpReply)
    ensures VerdictOf(CancelAfsFlight(reply)).TransportFailure?
        <==> reply.Reply? && ((reply.status != 400 && !IsOk(reply.status)) || reply.body == Some(FalsyJson))
    ensures VerdictOf(CancelAfsFlight(reply)).Rejected?
        <==> reply.Reply? && (reply.status == 400 || IsOk(reply.status))
             && reply.body.Some? && reply.body.value.TruthyJson? && ValueTruthy(reply.body.value.error)
    ensures VerdictOf(CancelAfsFlight(reply)).Rejected?
        ==> VerdictOf(CancelAfsFlight(reply)).message == reply.body.value.error.value
    ensures VerdictOf(CancelAfsFlight(reply)).Confirmed?
        <==> reply.Reply? && (reply.status == 400 || IsOk(reply.status))
             && reply.body.Some? && reply.body.value.TruthyJson? && !ValueTruthy(reply.body.value.error)
    ensures VerdictOf(CancelAfsFlight(reply)).Crashed?
        <==> reply.Unreachable? || ((reply.status == 400 || IsOk(reply.status)) && reply.body.None?)
  {
  }

  // ---------------------------------------------------------------------------
  // Inputs, responses and effects of the route

  /** The result of verifying the request's token. */
  datatype Auth = Unauthenticated | Verified(userId: Id, role: string)

  /** The JSON request body; a field is `None` when absent or `null`. */
  datatype CancelBody = CancelBody(bookingId: Option<Id>, flightBookingId: Option<Id>, hotelBookingId: Option<Id>)

  /**
   * What the notification request yields: success, a reply carrying an
   * `error` field, or a network failure (the promise rejects).
   */
  datatype NotifyReply = Delivered | Refused(error: string) | NotifyUnreachable

  datatype Payload =
    | ErrorPayload(error: string)
    | MessagePayload(remoteError: JsonValue)
    | Processed(message: string, flightCancel: Option<AfsBody>, hotelCancel: Option<HotelBooking>)

  datatype Response = Response(status: int, payload: Payload)

  /** Calls to the outside world and writes to the store, in the order they happen. */
  datatype Effect =
    | CallAfs(reference: string, lastName: string)
    | WriteFlight(flightId: Id)
    | NotifyFlight(uid: Id)
    | NotifyTrip(uid: Id)
    | WriteHotel(hotelId: Id)
    | WriteBooking(bookingId: Id)

  datatype Outcome = Outcome(response: Response, store: Store, log: seq<Effect>)

  /** The text `NotifyFlight` sends. */
  const FLIGHT_NOTICE: string := "Your Flight room booking has been cancelled."
  /** The text `NotifyTrip` sends (it says "Hotel" although it follows the parent booking). */
  const TRIP_NOTICE: string := "Your Hotel room booking has been cancelled."
  const PROCESSED: string := "Cancellation processed"

  function Fail(status: int, error: string): Response {
    Response(status, ErrorPayload(error))
  }

  /** What the route's `catch` answers to any exception. */
  const SERVER_ERROR: Response := Fail(500, "Server error")

  // ---------------------------------------------------------------------------
  // The checks

  /**
   * The checks that read only the token and the body: authentication, role,
   * a readable body, a booking id, at least one component id.
   */
  function RequestCheck(auth: Auth, body: Option<CancelBody>): (r: Option<Response>)
    ensures r.None? <==>
      && auth.Verified? && (auth.role == "USER" || auth.role == "ADMIN")
      && body.Some? && Truthy(body.value.bookingId)
      && (Truthy(body.value.flightBookingId) || Truthy(body.value.hotelBookingId))
    ensures r.Some? ==> r.value.status in {400, 401, 403, 500}
  {
    if auth.Unauthenticated? then Some(Fail(401, "Unauthorized"))
    else if auth.role != "USER" && auth.role != "ADMIN" then Some(Fail(403, "Forbidden"))
    else if body.None? then Some(SERVER_ERROR)
    else if !Truthy(body.value.bookingId) then Some(Fail(400, "You need to provide a Booking ID"))
    else if !Truthy(body.value.hotelBookingId) && !Truthy(body.value.flightBookingId) then
      Some(Fail(400, "You need to cancel at least one booking"))
    else None
  }

  /** The checks against the store: the caller exists, the booking exists and is the caller's. */
  function OwnershipCheck(s: Store, uid: Id, bookingId: Id): (r: Option<Response>)
    ensures r.None? <==> uid in s.users && bookingId in s.bookings && s.bookings[bookingId].userId == uid
    ensures r.Some? ==> r.value.status in {403, 404}
  {
    if uid !in s.users then Some(Fail(404, "Wrong user"))
    else if bookingId !in s.bookings then Some(Fail(404, "Booking not found"))
    else if s.bookings[bookingId].userId != uid then Some(Fail(403, "Forbidden"))
    else None
  }

  /**
   * How the route reads a notification reply: a network failure lands in the
   * `catch`, a reply with a non-empty `error` is answered with 404.
   */
  function NoticeFailure(n: NotifyReply): (r: Option<Response>)
    ensures r.None? <==> n.Delivered? || n == Refused("")
    ensures n.Refused? && r.Some? ==> r.value == Fail(404, n.error)
    ensures n.NotifyUnreachable? ==> r == Some(SERVER_ERROR)
    ensures r.Some? ==> r.value.status in {404, 500}
  {
    match n
    case Delivered => None
    case NotifyUnreachable => Some(SERVER_ERROR)
    case Refused(error) => if error != "" then Some(Fail(404, error)) else None
  }

  // ---------------------------------------------------------------------------
  // The legs

  /** Position of each kind of effect in the cancellation sequence. */
  function Rank(e: Effect): nat {
    match e
    case CallAfs(_, _) => 0
    case WriteFlight(_) => 1
    case NotifyFlight(_) => 2
    case NotifyTrip(_) => 5
    case WriteHotel(_) => 3
    case WriteBooking(_) => 4
  }

  /**
   * The effects happen in the saga's order: remote call, flight write, flight
   * notification, hotel write, parent write, final notification, each at most
   * once, skipping those not reached.
   */
  ghost predicate InSagaOrder(log: seq<Effect>) {
    forall i, j :: 0 <= i < j < |log| ==> Rank(log[i]) < Rank(log[j])
  }

  lemma SagaOrderAppend(a: seq<Effect>, b: seq<Effect>, k: nat)
    requires InSagaOrder(a) && InSagaOrder(b)
    requires forall i :: 0 <= i < |a| ==> Rank(a[i]) < k
    requires forall j :: 0 <= j < |b| ==> k <= Rank(b[j])
    ensures InSagaOrder(a + b)
  {
    var ab := a + b;
    forall i, j | 0 <= i < j < |ab|
      ensures Rank(ab[i]) < Rank(ab[j])
    {
      if j < |a| {
      } else if i < |a| {
        assert ab[i] == a[i] && ab[j] == b[j - |a|];
      } else {
        assert ab[i] == b[i - |a|] && ab[j] == b[j - |a|];
      }
    }
  }


  /** A step of the cancellation either completes with a value or ends the request. */
  datatype Leg<T> = Completed(store: Store, log: seq<Effect>, result: T) | Halted(response: Response, store: Store, log: seq<Effect>)

  function WithFlightCancelled(s: Store, flightId: Id): Store
    requires flightId in s.flights
  {
    s.(flights := s.flights[flightId := s.flights[flightId].(status := CANCELLED)])
  }

  function WithHotelCancelled(s: Store, hotelId: Id): Store
    requires hotelId in s.hotels
  {
    s.(hotels := s.hotels[hotelId := s.hotels[hotelId].(status := CANCELLED)])
  }

  function WithBookingCancelled(s: Store, bookingId: Id): Store
    requires bookingId in s.bookings
  {
    s.(bookings := s.bookings[bookingId := s.bookings[bookingId].(status := CANCELLED)])
  }

  /**
   * The flight leg. Reading the reference of a missing flight booking throws;
   * the remote call is made with the booking's reference and the caller's last
   * name; only a confirmation writes CANCELLED, after which the notification
   * is sent when the caller id is non-empty.
   */
  function FlightLeg(s: Store, flightId: Id, uid: Id, lastName: string, afs: HttpReply, notice: NotifyReply): (l: Leg<AfsBody>)
    ensures l.store == s || (flightId in s.flights && l.store == WithFlightCancelled(s, flightId))
    ensures l.store != s ==> VerdictOf(CancelAfsFlight(afs)).Confirmed?
    ensures flightId in s.flights && VerdictOf(CancelAfsFlight(afs)).Confirmed? ==> l.store == WithFlightCancelled(s, flightId)
    ensures l.Completed? <==>
      flightId in s.flights && VerdictOf(CancelAfsFlight(afs)).Confirmed? && (uid == "" || NoticeFailure(notice).None?)
    ensures l.Completed? ==> l.result == VerdictOf(CancelAfsFlight(afs)).body
    ensures flightId in s.flights ==> |l.log| > 0 && l.log[0] == CallAfs(s.flights[flightId].reference, lastName)
    ensures flightId !in s.flights ==> l == Halted(SERVER_ERROR, s, [])
    ensures InSagaOrder(l.log) && forall i :: 0 <= i < |l.log| ==> Rank(l.log[i]) < 3
    ensures l.Halted? ==> l.response.status != 200
  {
    if flightId !in s.flights then Halted(SERVER_ERROR, s, [])
    else
      var call := [CallAfs(s.flights[flightId].reference, lastName)];
      match VerdictOf(CancelAfsFlight(afs))
      case Crashed => Halted(SERVER_ERROR, s, call)
      case Rejected(message) => Halted(Response(400, MessagePayload(message)), s, call)
      case TransportFailure => Halted(Fail(500, "AFS Cancellation Error"), s, call)
      case Confirmed(confirmation) =>
        var s1 := WithFlightCancelled(s, flightId);
        var log1 := call + [WriteFlight(flightId)];
        if uid == "" then Completed(s1, log1, confirmation)
        else
          var log2 := log1 + [NotifyFlight(uid)];
          match NoticeFailure(notice)
          case Some(r) => Halted(r, s1, log2)
          case None => Completed(s1, log2, confirmation)
  }

  /**
   * The hotel leg: only the status of the hotel booking is written (no
   * calendar is touched); updating a missing record throws.
   */
  function HotelLeg(s: Store, hotelId: Id): (l: Leg<HotelBooking>)
    ensures l.Completed? <==> hotelId in s.hotels
    ensures l.Completed? ==> l.store == WithHotelCancelled(s, hotelId) && l.log == [WriteHotel(hotelId)]
    ensures l.Completed? ==> l.result == s.hotels[hotelId].(status := CANCELLED)
    ensures l.Halted? ==> l == Halted(SERVER_ERROR, s, [])
  {
    if hotelId !in s.hotels then Halted(SERVER_ERROR, s, [])
    else Completed(WithHotelCancelled(s, hotelId), [WriteHotel(hotelId)], s.hotels[hotelId].(status := CANCELLED))
  }

  /** The parent booking: status written, then the notification when the caller id is non-empty. */
  function ParentLeg(s: Store, bookingId: Id, uid: Id, notice: NotifyReply): (l: Leg<()>)
    requires bookingId in s.bookings
    ensures l.store == WithBookingCancelled(s, bookingId)
    ensures l.Completed? <==> uid == "" || NoticeFailure(notice).None?
    ensures |l.log| > 0 && l.log[0] == WriteBooking(bookingId)
    ensures InSagaOrder(l.log) && forall i :: 0 <= i < |l.log| ==> 4 <= Rank(l.log[i])
    ensures l.Halted? ==> l.response.status != 200
  {
    var s1 := WithBookingCancelled(s, bookingId);
    if uid == "" then Completed(s1, [WriteBooking(bookingId)], ())
    else
      var log := [WriteBooking(bookingId), NotifyTrip(uid)];
      match NoticeFailure(notice)
      case Some(r) => Halted(r, s1, log)
      case None => Completed(s1, log, ())
  }

  // ---------------------------------------------------------------------------
  // The route

  /**
   * POST /api/backend/booking/cancel. `afs` is the flight system's reply,
   * `flightNotice` and `tripNotice` the replies to the two notifications.
   */
  function Cancel(s: Store, auth: Auth, body: Option<CancelBody>, afs: HttpReply, flightNotice: NotifyReply, tripNotice: NotifyReply): (o: Outcome)
    ensures auth.Unauthenticated? ==> o == Outcome(Fail(401, "Unauthorized"), s, [])
    ensures auth.Verified? && auth.role != "USER" && auth.role != "ADMIN" ==> o == Outcome(Fail(403, "Forbidden"), s, [])
    ensures o.store.users == s.users
    ensures o.log == [] ==> o.store == s
    ensures InSagaOrder(o.log)
  {
    match RequestCheck(auth, body)
    case Some(r) => Outcome(r, s, [])
    case None =>
      var req := body.value;
      var uid := auth.userId;
      var bookingId := req.bookingId.value;
      match OwnershipCheck(s, uid, bookingId)
      case Some(r) => Outcome(r, s, [])
      case None =>
        if Truthy(req.flightBookingId) then
          match FlightLeg(s, req.flightBookingId.value, uid, s.users[uid].lastName, afs, flightNotice)
          case Halted(r, s1, log1) => Outcome(r, s1, log1)
          case Completed(s1, log1, confirmation) => AfterFlight(s1, log1, Some(confirmation), req, uid, tripNotice)
        else AfterFlight(s, [], None, req, uid, tripNotice)
  }

  /** The hotel leg, the parent booking and the final response, once the flight leg (if any) completed. */
  function AfterFlight(s: Store, log: seq<Effect>, flightCancel: Option<AfsBody>, req: CancelBody, uid: Id, tripNotice: NotifyReply): (o: Outcome)
    requires req.bookingId.Some? && req.bookingId.value in s.bookings
    requires InSagaOrder(log) && forall i :: 0 <= i < |log| ==> Rank(log[i]) < 3
    ensures o.store.users == s.users && o.store.flights == s.flights
    ensures o.log == [] ==> log == [] && o.store == s
    ensures InSagaOrder(o.log)
  {
    if Truthy(req.hotelBookingId) then
      match HotelLeg(s, req.hotelBookingId.value)
      case Halted(r, s2, log2) => Outcome(r, s2, log + log2)
      case Completed(s2, log2, hotelCancel) =>
        SagaOrderAppend(log, log2, 3);
        Finish(s2, log + log2, flightCancel, Some(hotelCancel), req, uid, tripNotice)
    else Finish(s, log, flightCancel, None, req, uid, tripNotice)
  }

  function Finish(s: Store, log: seq<Effect>, flightCancel: Option<AfsBody>, hotelCancel: Option<HotelBooking>, req: CancelBody, uid: Id, tripNotice: NotifyReply): (o: Outcome)
    requires req.bookingId.Some? && req.bookingId.value in s.bookings
    requires InSagaOrder(log) && forall i :: 0 <= i < |log| ==> Rank(log[i]) < 4
    ensures o.store.users == s.users && o.store.flights == s.flights && o.store.hotels == s.hotels
    ensures o.log == [] ==> log == [] && o.store == s
    ensures InSagaOrder(o.log)
  {
    var done := Response(200, Processed(PROCESSED, flightCancel, hotelCancel));
    if Truthy(req.flightBookingId) && Truthy(req.hotelBookingId) then
      var parent := ParentLeg(s, req.bookingId.value, uid, tripNotice);
      SagaOrderAppend(log, parent.log, 4);
      match parent
      case Halted(r, s3, log3) => Outcome(r, s3, log + log3)
      case Completed(s3, log3, _) => Outcome(done, s3, log + log3)
    else Outcome(done, s, log)
  }

  // ---------------------------------------------------------------------------
  // Properties of the route

  /** Every check of the route passes: the request reaches the flight leg or the hotel leg. */
  ghost predicate Admitted(s: Store, auth: Auth, body: Option<CancelBody>) {
    && RequestCheck(auth, body).None?
    && OwnershipCheck(s, auth.userId, body.value.bookingId.value).None?
  }

  /** The flight leg runs to its end: record found, remote confirmation, notification not failed. */
  ghost predicate FlightLegCompletes(s: Store, uid: Id, flightId: Id, afs: HttpReply, notice: NotifyReply) {
    && flightId in s.flights
    && VerdictOf(CancelAfsFlight(afs)).Confirmed?
    && (uid == "" || NoticeFailure(notice).None?)
  }

  /**
   * The store-free checks: each rejection comes with its own status and
   * message, leaves the store as it was, calls nothing, and does not depend
   * on the store at all.
   */
  lemma RequestRejections(s: Store, s': Store, auth: Auth, body: Option<CancelBody>, afs: HttpReply, fn: NotifyReply, tn: NotifyReply)
    requires auth.Verified? && (auth.role == "USER" || auth.role == "ADMIN")
    ensures body.None? ==> Cancel(s, auth, body, afs, fn, tn) == Outcome(SERVER_ERROR, s, [])
    ensures body.Some? && !Truthy(body.value.bookingId)
      ==> Cancel(s, auth, body, afs, fn, tn) == Outcome(Fail(400, "You need to provide a Booking ID"), s, [])
    ensures body.Some? && Truthy(body.value.bookingId)
      && !Truthy(body.value.flightBookingId) && !Truthy(body.value.hotelBookingId)
      ==> Cancel(s, auth, body, afs, fn, tn) == Outcome(Fail(400, "You need to cancel at least one booking"), s, [])
    ensures RequestCheck(auth, body).Some?
      ==> Cancel(s', auth, body, afs, fn, tn).response == Cancel(s, auth, body, afs, fn, tn).response
  {
  }

  /**
   * The store checks: an unknown caller, an unknown booking and someone
   * else's booking are rejected before anything is called or written.
   */
  lemma OwnershipRejections(s: Store, auth: Auth, body: Option<CancelBody>, afs: HttpReply, fn: NotifyReply, tn: NotifyReply)
    requires RequestCheck(auth, body).None?
    ensures auth.userId !in s.users
      ==> Cancel(s, auth, body, afs, fn, tn) == Outcome(Fail(404, "Wrong user"), s, [])
    ensures auth.userId in s.users && body.value.bookingId.value !in s.bookings
      ==> Cancel(s, auth, body, afs, fn, tn) == Outcome(Fail(404, "Booking not found"), s, [])
    ensures auth.userId in s.users && body.value.bookingId.value in s.bookings
      && s.bookings[body.value.bookingId.value].userId != auth.userId
      ==> Cancel(s, auth, body, afs, fn, tn) == Outcome(Fail(403, "Forbidden"), s, [])
  {
  }

  /**
   * A flight id naming no record: reading its reference throws, so the
   * request ends in the server error before the flight system is called.
   */
  lemma MissingFlightRecord(s: Store, auth: Auth, body: Option<CancelBody>, afs: HttpReply, fn: NotifyReply, tn: NotifyReply)
    requires Admitted(s, auth, body)
    requires Truthy(body.value.flightBookingId) && body.value.flightBookingId.value !in s.flights
    ensures Cancel(s, auth, body, afs, fn, tn) == Outcome(SERVER_ERROR, s, [])
  {
  }

  /**
   * A failed remote cancellation changes nothing locally: a rejection is
   * answered with 400 and the flight system's message verbatim, a transport
   * failure with 500 "AFS Cancellation Error"; the only effect is the call.
   */
  lemma RemoteFailureChangesNothing(s: Store, auth: Auth, body: Option<CancelBody>, afs: HttpReply, fn: NotifyReply, tn: NotifyReply)
    requires Admitted(s, auth, body)
    requires Truthy(body.value.flightBookingId) && body.value.flightBookingId.value in s.flights
    ensures var o := Cancel(s, auth, body, afs, fn, tn);
      var v := VerdictOf(CancelAfsFlight(afs));
      && (v.Rejected? ==> o.response == Response(400, MessagePayload(v.message)))
      && (v.TransportFailure? ==> o.response == Fail(500, "AFS Cancellation Error"))
      && (!v.Confirmed? ==>
            && o.store == s
            && o.log == [CallAfs(s.flights[body.value.flightBookingId.value].reference, s.users[auth.userId].lastName)])
  {
  }

  /**
   * The flight booking is written exactly when every check passed, a flight
   * id naming a record was given and the flight system confirmed; it is then
   * CANCELLED even if the notification that follows fails.
   */
  lemma FlightWrittenOnlyOnConfirmation(s: Store, auth: Auth, body: Option<CancelBody>, afs: HttpReply, fn: NotifyReply, tn: NotifyReply)
    ensures Cancel(s, auth, body, afs, fn, tn).store.flights ==
      if Admitted(s, auth, body) && Truthy(body.value.flightBookingId)
         && body.value.flightBookingId.value in s.flights && VerdictOf(CancelAfsFlight(afs)).Confirmed?
      then WithFlightCancelled(s, body.value.flightBookingId.value).flights
      else s.flights
  {
  }

  /**
   * The flight leg runs first: when it does not run to its end (rejection,
   * transport failure, missing record, failed notification) the hotel
   * booking and the parent booking are untouched and no hotel write happens.
   */
  lemma FlightFailureLeavesHotelUntouched(s: Store, auth: Auth, body: Option<CancelBody>, afs: HttpReply, fn: NotifyReply, tn: NotifyReply)
    requires Admitted(s, auth, body) && Truthy(body.value.flightBookingId)
    requires !FlightLegCompletes(s, auth.userId, body.value.flightBookingId.value, afs, fn)
    ensures Cancel(s, auth, body, afs, fn, tn).store.hotels == s.hotels
    ensures Cancel(s, auth, body, afs, fn, tn).store.bookings == s.bookings
    ensures forall e :: e in Cancel(s, auth, body, afs, fn, tn).log ==> !e.WriteHotel? && !e.WriteBooking?
  {
  }

  /**
   * A failed flight notification ends the request after the flight status
   * was written: the response is the notification's failure, the flight
   * booking stays CANCELLED, the hotel booking is untouched.
   */
  lemma FlightNoticeFailureAfterCommit(s: Store, auth: Auth, body: Option<CancelBody>, afs: HttpReply, fn: NotifyReply, tn: NotifyReply)
    requires Admitted(s, auth, body) && Truthy(body.value.flightBookingId)
    requires body.value.flightBookingId.value in s.flights && VerdictOf(CancelAfsFlight(afs)).Confirmed?
    requires auth.userId != "" && NoticeFailure(fn).Some?
    ensures var o := Cancel(s, auth, body, afs, fn, tn);
      && o.response == NoticeFailure(fn).value
      && o.store.flights[body.value.flightBookingId.value].status == CANCELLED
      && o.store.hotels == s.hotels
  {
  }

  /**
   * The hotel booking is written exactly when every check passed, a hotel id
   * naming a record was given, and the flight leg, if requested, ran to its end.
   */
  lemma HotelWrittenOnlyAfterFlightLeg(s: Store, auth: Auth, body: Option<CancelBody>, afs: HttpReply, fn: NotifyReply, tn: NotifyReply)
    ensures Cancel(s, auth, body, afs, fn, tn).store.hotels ==
      if Admitted(s, auth, body) && Truthy(body.value.hotelBookingId) && body.value.hotelBookingId.value in s.hotels
         && (Truthy(body.value.flightBookingId) ==> FlightLegCompletes(s, auth.userId, body.value.flightBookingId.value, afs, fn))
      then WithHotelCancelled(s, body.value.hotelBookingId.value).hotels
      else s.hotels
  {
  }

  /**
   * A hotel id naming no record after a completed flight leg: the update
   * throws, the answer is the server error, and the flight booking stays
   * CANCELLED while the parent booking is untouched.
   */
  lemma MissingHotelAfterFlightCommit(s: Store, auth: Auth, body: Option<CancelBody>, afs: HttpReply, fn: NotifyReply, tn: NotifyReply)
    requires Admitted(s, auth, body) && Truthy(body.value.flightBookingId)
    requires FlightLegCompletes(s, auth.userId, body.value.flightBookingId.value, afs, fn)
    requires Truthy(body.value.hotelBookingId) && body.value.hotelBookingId.value !in s.hotels
    ensures var o := Cancel(s, auth, body, afs, fn, tn);
      && o.response == SERVER_ERROR
      && o.store.flights[body.value.flightBookingId.value].status == CANCELLED
      && o.store.bookings == s.bookings
  {
  }

  /**
   * The parent booking becomes CANCELLED exactly when both component ids
   * were given and both legs ran to their end; naming one component leaves
   * it as it was.
   */
  lemma ParentCancelledIffBothLegs(s: Store, auth: Auth, body: Option<CancelBody>, afs: HttpReply, fn: NotifyReply, tn: NotifyReply)
    ensures Cancel(s, auth, body, afs, fn, tn).store.bookings ==
      if Admitted(s, auth, body) && Truthy(body.value.flightBookingId) && Truthy(body.value.hotelBookingId)
         && FlightLegCompletes(s, auth.userId, body.value.flightBookingId.value, afs, fn)
         && body.value.hotelBookingId.value in s.hotels
      then WithBookingCancelled(s, body.value.bookingId.value).bookings
      else s.bookings
  {
  }

  /** What a response reports on success: one result per requested leg. */
  predicate ReportsLegs(r: Response, flightCancel: Option<AfsBody>, hotelCancel: Option<HotelBooking>) {
    r.status == 200 ==> r.payload == Processed(PROCESSED, flightCancel, hotelCancel)
  }

  lemma FinishSucceeds(s: Store, log: seq<Effect>, flightCancel: Option<AfsBody>, hotelCancel: Option<HotelBooking>, req: CancelBody, uid: Id, tn: NotifyReply)
    requires req.bookingId.Some? && req.bookingId.value in s.bookings
    requires InSagaOrder(log) && forall i :: 0 <= i < |log| ==> Rank(log[i]) < 4
    ensures var o := Finish(s, log, flightCancel, hotelCancel, req, uid, tn);
      && (o.response.status == 200 <==>
            ((Truthy(req.flightBookingId) && Truthy(req.hotelBookingId)) ==> (uid == "" || NoticeFailure(tn).None?)))
      && ReportsLegs(o.response, flightCancel, hotelCancel)
  {
  }

  lemma AfterFlightSucceeds(s: Store, log: seq<Effect>, flightCancel: Option<AfsBody>, req: CancelBody, uid: Id, tn: NotifyReply)
    requires req.bookingId.Some? && req.bookingId.value in s.bookings
    requires InSagaOrder(log) && forall i :: 0 <= i < |log| ==> Rank(log[i]) < 3
    ensures var o := AfterFlight(s, log, flightCancel, req, uid, tn);
      && (o.response.status == 200 <==>
            && (Truthy(req.hotelBookingId) ==> req.hotelBookingId.value in s.hotels)
            && ((Truthy(req.flightBookingId) && Truthy(req.hotelBookingId)) ==> (uid == "" || NoticeFailure(tn).None?)))
      && ReportsLegs(o.response, flightCancel,
           if Truthy(req.hotelBookingId) && req.hotelBookingId.value in s.hotels
           then Some(s.hotels[req.hotelBookingId.value].(status := CANCELLED)) else None)
  {
    if Truthy(req.hotelBookingId) {
      var h := HotelLeg(s, req.hotelBookingId.value);
      if h.Completed? {
        SagaOrderAppend(log, h.log, 3);
        FinishSucceeds(h.store, log + h.log, flightCancel, Some(h.result), req, uid, tn);
      }
    } else {
      FinishSucceeds(s, log, flightCancel, None, req, uid, tn);
    }
  }

  /**
   * The request succeeds exactly when every step does: all checks pass, the
   * flight leg (if requested) runs to its end, the hotel record (if requested)
   * exists, and the final notification (if both legs were requested) does
   * not fail. The success response then reports one result per requested
   * leg: the flight system's confirmation and the updated hotel booking, each
   * absent when its id was not given.
   */
  lemma {:induction false} SucceedsIffEveryStep(s: Store, auth: Auth, body: Option<CancelBody>, afs: HttpReply, fn: NotifyReply, tn: NotifyReply)
    ensures Cancel(s, auth, body, afs, fn, tn).response.status == 200 <==>
      && Admitted(s, auth, body)
      && (Truthy(body.value.flightBookingId) ==> FlightLegCompletes(s, auth.userId, body.value.flightBookingId.value, afs, fn))
      && (Truthy(body.value.hotelBookingId) ==> body.value.hotelBookingId.value in s.hotels)
      && ((Truthy(body.value.flightBookingId) && Truthy(body.value.hotelBookingId)) ==>
            (auth.userId == "" || NoticeFailure(tn).None?))
    ensures Cancel(s, auth, body, afs, fn, tn).response.status == 200 ==>
      Cancel(s, auth, body, afs, fn, tn).response.payload == Processed(
        PROCESSED,
        if Truthy(body.value.flightBookingId) then Some(VerdictOf(CancelAfsFlight(afs)).body) else None,
        if Truthy(body.value.hotelBookingId) then Some(s.hotels[body.value.hotelBookingId.value].(status := CANCELLED)) else None)
  {
    if Admitted(s, auth, body) {
      var req := body.value;
      var uid := auth.userId;
      if Truthy(req.flightBookingId) {
        var l := FlightLeg(s, req.flightBookingId.value, uid, s.users[uid].lastName, afs, fn);
        if l.Completed? {
          assert l.store.hotels == s.hotels;
          AfterFlightSucceeds(l.store, l.log, Some(l.result), req, uid, tn);
        }
      } else {
        AfterFlightSucceeds(s, [], None, req, uid, tn);
      }
    }
  }

  /** The id a request names for a component, or "" when it names none. */
  function NamedId(id: Option<Id>): Id {
    if Truthy(id) then id.value else ""
  }

  /**
   * Nothing else changes: only the three named records can change, only in
   * their status, only to CANCELLED; an absent component id touches nothing
   * of its kind.
   */
  lemma OnlyNamedRecordsChange(s: Store, auth: Auth, body: Option<CancelBody>, afs: HttpReply, fn: NotifyReply, tn: NotifyReply)
    requires body.Some?
    ensures var o := Cancel(s, auth, body, afs, fn, tn);
      OnlyStatusesOf(s, o.store, NamedId(body.value.bookingId), NamedId(body.value.flightBookingId), NamedId(body.value.hotelBookingId))
    ensures !Truthy(body.value.flightBookingId) ==> Cancel(s, auth, body, afs, fn, tn).store.flights == s.flights
    ensures !Truthy(body.value.hotelBookingId) ==> Cancel(s, auth, body, afs, fn, tn).store.hotels == s.hotels
  {
    FlightWrittenOnlyOnConfirmation(s, auth, body, afs, fn, tn);
    HotelWrittenOnlyAfterFlightLeg(s, auth, body, afs, fn, tn);
    ParentCancelledIffBothLegs(s, auth, body, afs, fn, tn);
  }
}
