/**
 Records kept by the store, the store itself (two sequences in insertion
 order), the outcomes a handler can report, and the invariants a store is
 expected to keep.
 */
module Records {
  import opened Duration
  import opened Interval

  type Id = nat

  datatype Option<+T> = None | Some(value: T)

  datatype Vehicle = Vehicle(id: Id, name: string, capacityKg: int, tyres: int)

  datatype Booking = Booking(
    id: Id,
    vehicleId: Id,
    fromPincode: int,
    toPincode: int,
    startTime: int,
    endTime: int,
    customerId: string)

  /** A booking with its vehicle reference resolved to the vehicle record,
      or to nothing when the reference is dangling. */
  datatype PopulatedBooking = PopulatedBooking(booking: Booking, vehicle: Option<Vehicle>)

  /** The store: both collections in insertion order, and the identifier
      each collection hands out next. Identifiers are never handed out
      twice, so the counters only grow. */
  datatype Store = Store(vehicles: seq<Vehicle>, bookings: seq<Booking>, nextVehicleId: Id, nextBookingId: Id)

  /** The failures a handler reports, each with its message. */
  datatype Error =
    | NotFound(message: string)
    | Conflict(message: string)
    | ValidationError(message: string)
    | StoreFailure(message: string)
  {
    /** HTTP status the handler answers with for this failure. */
    function Status(): (code: nat)
      ensures code == 404 <==> NotFound?
      ensures code == 500 <==> StoreFailure?
      ensures code == 400 <==> (Conflict? || ValidationError?)
    {
      match this
      case NotFound(_) => 404
      case StoreFailure(_) => 500
      case _ => 400
    }
  }

  /** What a handler answers: a success status with a body, or a failure. */
  datatype Outcome<+T> = Done(status: nat, value: T) | Failed(error: Error)

  /** The answer of a handler that may change the store, with the store after. */
  datatype Handled<+T> = Handled(outcome: Outcome<T>, store: Store)

  predicate HasVehicle(vs: seq<Vehicle>, id: Id)
  {
    exists i :: 0 <= i < |vs| && vs[i].id == id
  }

  predicate HasBooking(bs: seq<Booking>, id: Id)
  {
    exists i :: 0 <= i < |bs| && bs[i].id == id
  }

  /** The first vehicle with the given id, as a lookup by id answers. */
  function FindVehicle(vs: seq<Vehicle>, id: Id): (r: Option<Vehicle>)
    ensures r.Some? <==> HasVehicle(vs, id)
    ensures r.Some? ==> r.value in vs && r.value.id == id
  {
    if vs == [] then None
    else if vs[0].id == id then Some(vs[0])
    else
      var rest := FindVehicle(vs[1..], id);
      assert HasVehicle(vs, id) <==> HasVehicle(vs[1..], id) by {
        if HasVehicle(vs, id) {
          var i :| 0 <= i < |vs| && vs[i].id == id;
          assert vs[1..][i - 1] == vs[i];
        }
        if HasVehicle(vs[1..], id) {
          var i :| 0 <= i < |vs[1..]| && vs[1..][i].id == id;
          assert vs[i + 1] == vs[1..][i];
        }
      }
      rest
  }

  /** Position of the first booking with the given id, if any. */
  function IndexOfBooking(bs: seq<Booking>, id: Id): (r: Option<nat>)
    ensures r.Some? <==> HasBooking(bs, id)
    ensures r.Some? ==> r.value < |bs| && bs[r.value].id == id
    ensures r.Some? ==> forall i :: 0 <= i < r.value ==> bs[i].id != id
  {
    if bs == [] then None
    else if bs[0].id == id then Some(0)
    else
      match IndexOfBooking(bs[1..], id)
      case None => None
      case Some(k) => Some(k + 1)
  }

  /** Every id in use was handed out earlier, so lies below its counter. */
  predicate IdsBelowCounters(st: Store)
  {
    && (forall i :: 0 <= i < |st.vehicles| ==> st.vehicles[i].id < st.nextVehicleId)
    && (forall i :: 0 <= i < |st.bookings| ==> st.bookings[i].id < st.nextBookingId)
  }

  predicate UniqueVehicleIds(vs: seq<Vehicle>)
  {
    forall i, j :: 0 <= i < j < |vs| ==> vs[i].id != vs[j].id
  }

  predicate UniqueBookingIds(bs: seq<Booking>)
  {
    forall i, j :: 0 <= i < j < |bs| ==> bs[i].id != bs[j].id
  }

  /** Booking `b` is for vehicle `vehicleId` and its window overlaps
      `[start, end)`. */
  predicate Conflicts(b: Booking, vehicleId: Id, start: int, end: int)
  {
    b.vehicleId == vehicleId && Overlaps(b.startTime, b.endTime, start, end)
  }

  /** The core invariant: no two bookings of the same vehicle overlap. */
  predicate NoDoubleBooking(bs: seq<Booking>)
  {
    forall i, j :: 0 <= i < j < |bs| ==> !Conflicts(bs[i], bs[j].vehicleId, bs[j].startTime, bs[j].endTime)
  }

  /** Every booking's window is the estimated ride duration from its start. */
  predicate WindowsMatchDuration(bs: seq<Booking>)
  {
    forall i :: 0 <= i < |bs| ==> bs[i].endTime == WindowEnd(bs[i].startTime, bs[i].fromPincode, bs[i].toPincode)
  }

  /** Every booking refers to a registered vehicle. */
  predicate BookingsReferToVehicles(st: Store)
  {
    forall i :: 0 <= i < |st.bookings| ==> HasVehicle(st.vehicles, st.bookings[i].vehicleId)
  }

  /** The invariants every handler keeps. */
  predicate Valid(st: Store)
  {
    && IdsBelowCounters(st)
    && UniqueVehicleIds(st.vehicles)
    && UniqueBookingIds(st.bookings)
    && NoDoubleBooking(st.bookings)
    && WindowsMatchDuration(st.bookings)
    && BookingsReferToVehicles(st)
  }
}
