/**
 Properties relating the booking handlers to each other and to the store
 invariants.
 */
module BookingProperties {
  import opened Records
  import opened VehicleController
  import opened BookingController

  /** Creating a booking keeps every store invariant, in particular that no
      two bookings of the same vehicle overlap. */
  lemma BookVehiclePreservesValid(st: Store, req: BookingRequest, failure: Option<string>)
    requires Valid(st)
    ensures Valid(BookVehicle(st, req, failure).store)
  {
  }

  /** Cancelling a booking keeps every store invariant. */
  lemma DeleteBookingPreservesValid(st: Store, id: Id, failure: Option<string>)
    requires Valid(st)
    ensures Valid(DeleteBooking(st, id, failure).store)
  {
    var r := DeleteBooking(st, id, failure);
    if r.outcome.Done? {
      var k :| 0 <= k < |st.bookings| && st.bookings[k].id == id
               && r.store.bookings == st.bookings[..k] + st.bookings[k + 1..];
      RemovalKeepsPairwise(st, k);
    }
  }

  /** Removing any one booking from a valid store leaves a valid store. */
  lemma RemovalKeepsPairwise(st: Store, k: nat)
    requires Valid(st)
    requires k < |st.bookings|
    ensures Valid(st.(bookings := st.bookings[..k] + st.bookings[k + 1..]))
  {
  }

  /** Bookings of other vehicles never decide whether, or why, a booking
      fails, whatever their windows. */
  lemma OtherVehiclesNeverConflict(st: Store, req: BookingRequest, failure: Option<string>, other: Booking)
    requires other.vehicleId != req.vehicleId
    ensures
      var before := BookVehicle(st, req, failure).outcome;
      var after := BookVehicle(st.(bookings := st.bookings + [other]), req, failure).outcome;
      && (before.Failed? <==> after.Failed?)
      && (before.Failed? ==> before.error == after.error)
  {
    var bs := st.bookings + [other];
    var s := req.startTime;
    var e := req.End();
    if HasConflict(bs, req.vehicleId, s, e) {
      var i :| 0 <= i < |bs| && Conflicts(bs[i], req.vehicleId, s, e);
      assert i < |st.bookings| && st.bookings[i] == bs[i];
    }
    if HasConflict(st.bookings, req.vehicleId, s, e) {
      var i :| 0 <= i < |st.bookings| && Conflicts(st.bookings[i], req.vehicleId, s, e);
      assert bs[i] == st.bookings[i];
    }
  }

  /** A registered vehicle meeting the capacity floor is listed as
      available for a window exactly when booking it for the same pincodes
      and start time would succeed. */
  lemma AvailableIffBookable(st: Store, q: AvailabilityQuery, v: Vehicle, customerId: string)
    requires v in st.vehicles && v.capacityKg >= q.capacity
    ensures
      var listed := GetAvailableVehicles(st, q, None).value;
      var req := BookingRequest(v.id, q.fromPincode, q.toPincode, q.startTime, customerId);
      AvailableVehicle(v, q.Hours()) in listed <==> BookVehicle(st, req, None).outcome.Done?
  {
  }

  /** After a booking is cancelled, no customer's listing contains it. */
  lemma CancelledBookingNotListed(st: Store, id: Id, customerId: string)
    requires UniqueBookingIds(st.bookings)
    requires DeleteBooking(st, id, None).outcome.Done?
    ensures
      var listed := GetBookings(DeleteBooking(st, id, None).store, customerId, None).value;
      forall i :: 0 <= i < |listed| ==> listed[i].booking.id != id
  {
  }

  /** Cancelling a booking that is present keeps the customer's other
      bookings listed. */
  lemma CancelKeepsOtherBookingsListed(st: Store, id: Id, b: Booking)
    requires UniqueBookingIds(st.bookings)
    requires b in st.bookings && b.id != id
    ensures
      var listed := GetBookings(DeleteBooking(st, id, None).store, b.customerId, None).value;
      b in BookingsOf(listed)
  {
  }

  /** A request to one of the writing handlers, with the store error (if
      any) that the call runs into. */
  datatype Command =
    | Register(vehicle: VehicleRequest, registerFailure: Option<string>)
    | Book(booking: BookingRequest, bookFailure: Option<string>)
    | Cancel(bookingId: Id, cancelFailure: Option<string>)

  /** The store after one handler call. */
  function Step(st: Store, c: Command): Store
  {
    match c
    case Register(req, failure) => AddVehicle(st, req, failure).store
    case Book(req, failure) => BookVehicle(st, req, failure).store
    case Cancel(id, failure) => DeleteBooking(st, id, failure).store
  }

  /** The store after a sequence of handler calls, applied in order. */
  function Run(st: Store, cs: seq<Command>): Store
    decreases |cs|
  {
    if cs == [] then st else Run(Step(st, cs[0]), cs[1..])
  }

  /** Every handler call keeps the store invariants. */
  lemma StepKeepsValid(st: Store, c: Command)
    requires Valid(st)
    ensures Valid(Step(st, c))
  {
    match c
    case Register(req, failure) => AddVehiclePreservesValid(st, req, failure);
    case Book(req, failure) => BookVehiclePreservesValid(st, req, failure);
    case Cancel(id, failure) => DeleteBookingPreservesValid(st, id, failure);
  }

  /** An empty database, before any handler call, satisfies the store
      invariants. */
  lemma EmptyStoreValid()
    ensures Valid(Store([], [], 0, 0))
  {
  }

  /** Any sequence of handler calls keeps the store invariants. */
  lemma {:induction false} RunKeepsValid(st: Store, cs: seq<Command>)
    requires Valid(st)
    ensures Valid(Run(st, cs))
    decreases |cs|
  {
    if cs != [] {
      StepKeepsValid(st, cs[0]);
      RunKeepsValid(Step(st, cs[0]), cs[1..]);
    }
  }

  /** The id counters never go back, whatever the handlers are asked. */
  lemma {:induction false} CountersNeverDecrease(st: Store, cs: seq<Command>)
    ensures Run(st, cs).nextVehicleId >= st.nextVehicleId
    ensures Run(st, cs).nextBookingId >= st.nextBookingId
    decreases |cs|
  {
    if cs != [] {
      CountersNeverDecrease(Step(st, cs[0]), cs[1..]);
    }
  }

  /** An id that was ever in use, even one cancelled since, is never handed
      to a new booking: a stale id can never name someone else's booking. */
  lemma CancelledIdNeverReissued(st: Store, id: Id, cs: seq<Command>, req: BookingRequest, failure: Option<string>)
    requires Valid(st)
    requires HasBooking(st.bookings, id)
    ensures
      var r := BookVehicle(Run(st, cs), req, failure);
      r.outcome.Done? ==> r.outcome.value.booking.id != id
  {
    CountersNeverDecrease(st, cs);
  }
}
