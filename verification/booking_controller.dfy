/**
 The booking engine: the availability query, booking creation with its
 same-vehicle conflict check, the per-customer listing and cancellation,
 all as pure functions over the store.
 */
module BookingController {
  import opened Duration
  import opened Interval
  import opened Records

  const VehicleNotFound: string := "Vehicle not found"
  const VehicleAlreadyBooked: string := "Vehicle already booked"
  const BookingNotFound: string := "Booking not found"
  const BookingCancelled: string := "Booking cancelled successfully"

  /** Some booking in `bs` is for vehicle `vehicleId` and overlaps `[start, end)`. */
  predicate HasConflict(bs: seq<Booking>, vehicleId: Id, start: int, end: int)
  {
    exists i :: 0 <= i < |bs| && Conflicts(bs[i], vehicleId, start, end)
  }

  // ---------------------------------------------------------------------
  // Availability query
  // ---------------------------------------------------------------------

  datatype AvailabilityQuery = AvailabilityQuery(capacity: int, fromPincode: int, toPincode: int, startTime: int)
  {
    function Hours(): nat { CalculateDuration(fromPincode, toPincode) }
    function End(): int { WindowEnd(startTime, fromPincode, toPincode) }
  }

  /** A vehicle record tagged with the estimated ride duration. */
  datatype AvailableVehicle = AvailableVehicle(vehicle: Vehicle, estimatedRideDurationHours: nat)

  /** The bookings, of any vehicle, whose window overlaps `[start, end)`,
      in store order. */
  function OverlappingBookings(bs: seq<Booking>, start: int, end: int): (r: seq<Booking>)
    ensures |r| <= |bs|
    ensures forall b :: b in r <==> b in bs && Overlaps(b.startTime, b.endTime, start, end)
  {
    if bs == [] then []
    else
      var rest := OverlappingBookings(bs[1..], start, end);
      assert forall b :: b in bs <==> b == bs[0] || b in bs[1..];
      if Overlaps(bs[0].startTime, bs[0].endTime, start, end) then [bs[0]] + rest else rest
  }

  /** The vehicle ids the given bookings refer to, one per booking: an id is
      listed exactly when some booking names that vehicle. */
  function VehicleIdsOf(bs: seq<Booking>): (r: seq<Id>)
    ensures |r| == |bs|
    ensures forall id :: id in r <==> exists i :: 0 <= i < |bs| && bs[i].vehicleId == id
  {
    if bs == [] then []
    else
      var rest := VehicleIdsOf(bs[1..]);
      assert forall i :: 0 < i < |bs| ==> bs[i] == bs[1..][i - 1];
      [bs[0].vehicleId] + rest
  }

  /** The vehicles of `vs` meeting the capacity floor and not among
      `bookedIds`, each tagged with `hours`, in store order. */
  function Unbooked(vs: seq<Vehicle>, capacity: int, bookedIds: seq<Id>, hours: nat): (r: seq<AvailableVehicle>)
    ensures |r| <= |vs|
    ensures forall a :: a in r ==> a.estimatedRideDurationHours == hours
    ensures forall v :: AvailableVehicle(v, hours) in r <==> v in vs && v.capacityKg >= capacity && v.id !in bookedIds
    ensures forall v ::
      multiset(r)[AvailableVehicle(v, hours)] ==
        (if v.capacityKg >= capacity && v.id !in bookedIds then multiset(vs)[v] else 0)
  {
    if vs == [] then []
    else
      var rest := Unbooked(vs[1..], capacity, bookedIds, hours);
      assert vs == [vs[0]] + vs[1..];
      assert forall v :: v in vs <==> v == vs[0] || v in vs[1..];
      var v := vs[0];
      if v.capacityKg >= capacity && v.id !in bookedIds then [AvailableVehicle(v, hours)] + rest else rest
  }

  /** The vehicles with at least `capacity` kg that have no booking
      overlapping the requested window; bookings of every vehicle are
      scanned and matched by vehicle id. The store is read, never changed. */
  function GetAvailableVehicles(st: Store, q: AvailabilityQuery, failure: Option<string>): (r: Outcome<seq<AvailableVehicle>>)
    ensures failure.Some? ==> r == Failed(StoreFailure(failure.value))
    ensures failure.None? ==> r.Done? && r.status == 200
    ensures r.Done? ==>
      && |r.value| <= |st.vehicles|
      && (forall a :: a in r.value ==> a.estimatedRideDurationHours == q.Hours())
      && (forall v :: AvailableVehicle(v, q.Hours()) in r.value <==>
            v in st.vehicles && v.capacityKg >= q.capacity && !HasConflict(st.bookings, v.id, q.startTime, q.End()))
      && (forall v ::
            multiset(r.value)[AvailableVehicle(v, q.Hours())] ==
              (if v.capacityKg >= q.capacity && !HasConflict(st.bookings, v.id, q.startTime, q.End())
               then multiset(st.vehicles)[v] else 0))
  {
    if failure.Some? then Failed(StoreFailure(failure.value))
    else
      var overlapping := OverlappingBookings(st.bookings, q.startTime, q.End());
      var bookedIds := VehicleIdsOf(overlapping);
      assert forall id :: id in bookedIds <==> HasConflict(st.bookings, id, q.startTime, q.End()) by {
        forall id
          ensures id in bookedIds <==> HasConflict(st.bookings, id, q.startTime, q.End())
        {
          if id in bookedIds {
            var k :| 0 <= k < |overlapping| && overlapping[k].vehicleId == id;
            assert overlapping[k] in overlapping;
          }
          if HasConflict(st.bookings, id, q.startTime, q.End()) {
            var i :| 0 <= i < |st.bookings| && Conflicts(st.bookings[i], id, q.startTime, q.End());
            assert st.bookings[i] in overlapping;
          }
        }
      }
      Done(200, Unbooked(st.vehicles, q.capacity, bookedIds, q.Hours()))
  }

  // ---------------------------------------------------------------------
  // Booking creation
  // ---------------------------------------------------------------------

  datatype BookingRequest = BookingRequest(vehicleId: Id, fromPincode: int, toPincode: int, startTime: int, customerId: string)
  {
    function End(): int { WindowEnd(startTime, fromPincode, toPincode) }
  }

  /** The first booking of `vehicleId` overlapping `[start, end)`, as a
      find-one query for that vehicle and window answers. */
  function ConflictingBooking(bs: seq<Booking>, vehicleId: Id, start: int, end: int): (r: Option<Booking>)
    ensures r.None? <==> !HasConflict(bs, vehicleId, start, end)
    ensures r.Some? ==> r.value in bs && Conflicts(r.value, vehicleId, start, end)
  {
    if bs == [] then None
    else if Conflicts(bs[0], vehicleId, start, end) then Some(bs[0])
    else
      var rest := ConflictingBooking(bs[1..], vehicleId, start, end);
      assert HasConflict(bs, vehicleId, start, end) ==> HasConflict(bs[1..], vehicleId, start, end) by {
        if HasConflict(bs, vehicleId, start, end) {
          var i :| 0 <= i < |bs| && Conflicts(bs[i], vehicleId, start, end);
          assert bs[1..][i - 1] == bs[i];
        }
      }
      assert HasConflict(bs[1..], vehicleId, start, end) ==> HasConflict(bs, vehicleId, start, end) by {
        if HasConflict(bs[1..], vehicleId, start, end) {
          var i :| 0 <= i < |bs[1..]| && Conflicts(bs[1..][i], vehicleId, start, end);
          assert bs[i + 1] == bs[1..][i];
        }
      }
      rest
  }

  /** Books a vehicle for the window that starts at the requested time and
      lasts the estimated ride duration. `failure` is the error the store
      raises, if it is unreachable; its first call is the vehicle lookup. */
  function BookVehicle(st: Store, req: BookingRequest, failure: Option<string>): (r: Handled<PopulatedBooking>)
    ensures failure.Some? ==> r == Handled(Failed(StoreFailure(failure.value)), st)
    ensures failure.None? && !HasVehicle(st.vehicles, req.vehicleId) ==>
      r == Handled(Failed(NotFound(VehicleNotFound)), st)
    ensures (failure.None? && HasVehicle(st.vehicles, req.vehicleId)
             && HasConflict(st.bookings, req.vehicleId, req.startTime, req.End())) ==>
      r == Handled(Failed(Conflict(VehicleAlreadyBooked)), st)
    ensures r.outcome.Done? <==>
      failure.None? && HasVehicle(st.vehicles, req.vehicleId)
      && !HasConflict(st.bookings, req.vehicleId, req.startTime, req.End())
    ensures r.outcome.Done? ==>
      && r.outcome.status == 201
      && var b := r.outcome.value.booking;
      && b.vehicleId == req.vehicleId
      && b.fromPincode == req.fromPincode
      && b.toPincode == req.toPincode
      && b.customerId == req.customerId
      && b.startTime == req.startTime
      && b.endTime == req.startTime + CalculateDuration(req.fromPincode, req.toPincode) * MsPerHour
      && b.id == st.nextBookingId
      && (IdsBelowCounters(st) ==> !HasBooking(st.bookings, b.id))
      && r.store == st.(bookings := st.bookings + [b], nextBookingId := b.id + 1)
      && r.outcome.value.vehicle.Some?
      && r.outcome.value.vehicle.value in st.vehicles
      && r.outcome.value.vehicle.value.id == req.vehicleId
  {
    if failure.Some? then
      Handled(Failed(StoreFailure(failure.value)), st)
    else
      match FindVehicle(st.vehicles, req.vehicleId)
      case None => Handled(Failed(NotFound(VehicleNotFound)), st)
      case Some(vehicle) =>
        var start := req.startTime;
        var end := req.End();
        if ConflictingBooking(st.bookings, req.vehicleId, start, end).Some? then
          Handled(Failed(Conflict(VehicleAlreadyBooked)), st)
        else
          var b := Booking(st.nextBookingId, req.vehicleId, req.fromPincode, req.toPincode,
                           start, end, req.customerId);
          Handled(Done(201, PopulatedBooking(b, Some(vehicle))),
                  st.(bookings := st.bookings + [b], nextBookingId := b.id + 1))
  }

  // ---------------------------------------------------------------------
  // Listing a customer's bookings
  // ---------------------------------------------------------------------

  predicate SortedByStartDesc(bs: seq<Booking>)
  {
    forall i, j :: 0 <= i < j < |bs| ==> bs[i].startTime >= bs[j].startTime
  }

  /** The bookings of customer `c`, each with the multiplicity it has in `bs`. */
  function ForCustomer(bs: seq<Booking>, c: string): (r: seq<Booking>)
    ensures forall b :: multiset(r)[b] == if b.customerId == c then multiset(bs)[b] else 0
  {
    if bs == [] then []
    else
      var rest := ForCustomer(bs[1..], c);
      assert bs == [bs[0]] + bs[1..];
      if bs[0].customerId == c then [bs[0]] + rest else rest
  }

  /** `b` placed into the list `s` ahead of the first booking that starts
      earlier. */
  function Insert(b: Booking, s: seq<Booking>): (r: seq<Booking>)
    ensures multiset(r) == multiset(s) + multiset{b}
  {
    if s == [] || b.startTime >= s[0].startTime then [b] + s
    else
      assert s == [s[0]] + s[1..];
      [s[0]] + Insert(b, s[1..])
  }

  /** Insertion into a descending list keeps it descending. */
  lemma {:induction false} InsertKeepsSorted(b: Booking, s: seq<Booking>)
    requires SortedByStartDesc(s)
    ensures SortedByStartDesc(Insert(b, s))
  {
    if s != [] && b.startTime < s[0].startTime {
      var rest := Insert(b, s[1..]);
      InsertKeepsSorted(b, s[1..]);
      forall x | x in rest
        ensures x.startTime <= s[0].startTime
      {
        assert x in multiset(rest);
        if x != b {
          assert x in multiset(s[1..]);
          var j :| 0 <= j < |s[1..]| && s[1..][j] == x;
          assert s[j + 1] == x;
        }
      }
      var r := [s[0]] + rest;
      assert r == Insert(b, s);
      forall i, j | 0 <= i < j < |r|
        ensures r[i].startTime >= r[j].startTime
      {
        assert r[j] == rest[j - 1];
        assert r[j] in rest;
        if i > 0 { assert r[i] == rest[i - 1]; }
      }
    }
  }

  /** A permutation of `bs` ordered by start time, latest first. */
  function SortByStartDesc(bs: seq<Booking>): (r: seq<Booking>)
    ensures SortedByStartDesc(r)
    ensures multiset(r) == multiset(bs)
  {
    if bs == [] then []
    else
      assert bs == [bs[0]] + bs[1..];
      var rest := SortByStartDesc(bs[1..]);
      InsertKeepsSorted(bs[0], rest);
      Insert(bs[0], rest)
  }

  function BookingsOf(ps: seq<PopulatedBooking>): seq<Booking>
  {
    seq(|ps|, i requires 0 <= i < |ps| => ps[i].booking)
  }

  /** Each booking of `bs` with its vehicle reference resolved against `vs`. */
  function PopulateAll(vs: seq<Vehicle>, bs: seq<Booking>): (ps: seq<PopulatedBooking>)
    ensures BookingsOf(ps) == bs
    ensures forall i :: 0 <= i < |ps| ==> ps[i].vehicle == FindVehicle(vs, ps[i].booking.vehicleId)
  {
    seq(|bs|, i requires 0 <= i < |bs| => PopulatedBooking(bs[i], FindVehicle(vs, bs[i].vehicleId)))
  }

  /** The bookings of customer `customerId`, latest start first, each with
      its vehicle resolved. The store is read, never changed. */
  function GetBookings(st: Store, customerId: string, failure: Option<string>): (r: Outcome<seq<PopulatedBooking>>)
    ensures failure.Some? ==> r == Failed(StoreFailure(failure.value))
    ensures failure.None? ==> r.Done? && r.status == 200
    ensures r.Done? ==>
      var ps := r.value;
      && (forall i :: 0 <= i < |ps| ==> ps[i].booking.customerId == customerId)
      && (forall i :: 0 <= i < |ps| ==> ps[i].vehicle == FindVehicle(st.vehicles, ps[i].booking.vehicleId))
      && (forall i, j :: 0 <= i < j < |ps| ==> ps[i].booking.startTime >= ps[j].booking.startTime)
      && (forall b :: multiset(BookingsOf(ps))[b] == if b.customerId == customerId then multiset(st.bookings)[b] else 0)
  {
    if failure.Some? then Failed(StoreFailure(failure.value))
    else
      var mine := ForCustomer(st.bookings, customerId);
      var sorted := SortByStartDesc(mine);
      var ps := PopulateAll(st.vehicles, sorted);
      assert forall i :: 0 <= i < |ps| ==> ps[i].booking == sorted[i] by {
        forall i | 0 <= i < |ps| ensures ps[i].booking == sorted[i] {
          assert BookingsOf(ps)[i] == sorted[i];
        }
      }
      assert forall i :: 0 <= i < |sorted| ==> sorted[i].customerId == customerId by {
        forall i | 0 <= i < |sorted|
          ensures sorted[i].customerId == customerId
        {
          assert sorted[i] in multiset(mine);
        }
      }
      Done(200, ps)
  }

  // ---------------------------------------------------------------------
  // Cancellation
  // ---------------------------------------------------------------------

  /** Cancels the booking with the given id. `failure` is the error the store
      raises, if it is unreachable. */
  function DeleteBooking(st: Store, id: Id, failure: Option<string>): (r: Handled<string>)
    ensures failure.Some? ==> r == Handled(Failed(StoreFailure(failure.value)), st)
    ensures failure.None? && !HasBooking(st.bookings, id) ==> r == Handled(Failed(NotFound(BookingNotFound)), st)
    ensures r.outcome.Done? <==> failure.None? && HasBooking(st.bookings, id)
    ensures r.outcome.Done? ==>
      && r.outcome == Done(200, BookingCancelled)
      && r.store == st.(bookings := r.store.bookings)
      && exists k :: 0 <= k < |st.bookings| && st.bookings[k].id == id
           && r.store.bookings == st.bookings[..k] + st.bookings[k + 1..]
    ensures r.outcome.Done? && UniqueBookingIds(st.bookings) ==>
      && !HasBooking(r.store.bookings, id)
      && forall b :: b in st.bookings && b.id != id ==> b in r.store.bookings
  {
    if failure.Some? then
      Handled(Failed(StoreFailure(failure.value)), st)
    else
      match IndexOfBooking(st.bookings, id)
      case None => Handled(Failed(NotFound(BookingNotFound)), st)
      case Some(k) =>
        var bs := st.bookings[..k] + st.bookings[k + 1..];
        RemovalKeepsOthers(st.bookings, k);
        Handled(Done(200, BookingCancelled), st.(bookings := bs))
  }

  /** Removing position `k` keeps every other booking, and with unique ids
      removes the only booking carrying the id at `k`. */
  lemma RemovalKeepsOthers(bs: seq<Booking>, k: nat)
    requires k < |bs|
    ensures forall b :: b in bs && b.id != bs[k].id ==> b in bs[..k] + bs[k + 1..]
    ensures UniqueBookingIds(bs) ==> !HasBooking(bs[..k] + bs[k + 1..], bs[k].id)
  {
  }
}
