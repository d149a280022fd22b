/**
 Examples of the controllers' behaviour, including the cases their tests
 exercise, stated against concrete stores.
 */
module Scenarios {
  import opened Duration
  import opened Records
  import opened VehicleController
  import opened BookingController

  /** 2024-01-01T10:00:00Z in milliseconds since the epoch. */
  const TenAm: int := 1704103200000

  const TruckA: Vehicle := Vehicle(1, "Truck A", 1000, 6)

  const OneTruck: Store := Store([TruckA], [], 2, 0)

  /** A 19-hour ride starting 2024-01-01T10:00:00Z ends at
      2024-01-02T05:00:00Z. */
  lemma NineteenHourBookingEnd()
    ensures
      var r := BookVehicle(OneTruck, BookingRequest(1, 100001, 100020, TenAm, "c1"), None);
      && r.outcome.Done?
      && r.outcome.value.booking.endTime == 1704171600000
  {
  }

  /** Windows [10:00, 15:00) and [15:00, 20:00) only touch, so the second
      booking of the same truck succeeds; repeating the first window is a
      conflict answered with status 400. */
  lemma TouchingWindowsBothBook()
    ensures
      var first := BookVehicle(OneTruck, BookingRequest(1, 100001, 100006, TenAm, "c1"), None);
      var second := BookVehicle(first.store, BookingRequest(1, 100001, 100006, TenAm + 5 * MsPerHour, "c2"), None);
      var again := BookVehicle(first.store, BookingRequest(1, 100001, 100006, TenAm, "c2"), None);
      && first.outcome.Done?
      && second.outcome.Done?
      && again.outcome == Failed(Conflict(VehicleAlreadyBooked))
      && again.outcome.error.Status() == 400
  {
  }

  /** Booking an unknown vehicle answers 404 and stores nothing. */
  lemma UnknownVehicleNotFound()
    ensures
      var r := BookVehicle(OneTruck, BookingRequest(7, 100001, 100020, TenAm, "c1"), None);
      && r == Handled(Failed(NotFound(VehicleNotFound)), OneTruck)
      && r.outcome.error.Status() == 404
  {
  }

  /** With no bookings the truck is listed, tagged with the estimated
      duration. */
  lemma FreeTruckIsAvailable()
    ensures
      var r := GetAvailableVehicles(OneTruck, AvailabilityQuery(500, 100001, 100020, TenAm), None);
      r == Done(200, [AvailableVehicle(TruckA, 19)])
  {
    assert OverlappingBookings([], TenAm, TenAm + 19 * MsPerHour) == [];
    assert VehicleIdsOf([]) == [];
    assert Unbooked([TruckA], 500, [], 19) == [AvailableVehicle(TruckA, 19)] by {
      assert [TruckA][1..] == [];
    }
  }

  /** A store error in the availability query is answered with status 500
      and the error's message. */
  lemma AvailabilityStoreError()
    ensures
      var r := GetAvailableVehicles(OneTruck, AvailabilityQuery(500, 100001, 100020, TenAm), Some("DB error"));
      r == Failed(StoreFailure("DB error")) && r.error.Status() == 500
  {
  }

  /** Registering "Truck A" with 1000 kg and 6 tyres creates exactly that
      vehicle and answers 201 with it. */
  lemma RegisterTruck()
    ensures
      var r := AddVehicle(Store([], [], 0, 0), VehicleRequest(Some("Truck A"), Some(1000), Some(6)), None);
      && r.outcome.Done?
      && r.outcome.status == 201
      && r.store.vehicles == [r.outcome.value]
      && r.outcome.value.name == "Truck A"
      && r.outcome.value.capacityKg == 1000
      && r.outcome.value.tyres == 6
  {
  }

  /** A body with only a name, or with zero tyres, is rejected with
      "Fill all details" and creates nothing. */
  lemma IncompleteVehicleRejected()
    ensures AddVehicle(OneTruck, VehicleRequest(Some("Truck A"), None, None), None)
            == Handled(Failed(ValidationError("Fill all details")), OneTruck)
    ensures AddVehicle(OneTruck, VehicleRequest(Some("Truck A"), Some(1000), Some(0)), None)
            == Handled(Failed(ValidationError("Fill all details")), OneTruck)
  {
  }

  /** A store error on create is answered with status 500 and its message. */
  lemma RegisterStoreError()
    ensures AddVehicle(OneTruck, VehicleRequest(Some("Truck A"), Some(1000), Some(6)), Some("Database error"))
            == Handled(Failed(StoreFailure("Database error")), OneTruck)
  {
  }

  /** Cancelling an unknown booking answers 404; cancelling a booked one
      removes it from its customer's listing. */
  lemma CancelScenario()
    ensures DeleteBooking(OneTruck, 5, None) == Handled(Failed(NotFound(BookingNotFound)), OneTruck)
    ensures
      var booked := BookVehicle(OneTruck, BookingRequest(1, 100001, 100020, TenAm, "c1"), None).store;
      var cancelled := DeleteBooking(booked, 0, None);
      && cancelled.outcome == Done(200, BookingCancelled)
      && GetBookings(cancelled.store, "c1", None) == Done(200, [])
  {
  }

  /** Pincodes 24 apart give a zero-hour window `[10:00, 10:00)`. Under the
      strict overlap test two such bookings of the same truck at the same
      instant do not conflict, so both are stored. */
  lemma ZeroHourBookingsCoexist()
    ensures
      var first := BookVehicle(OneTruck, BookingRequest(1, 100001, 100025, TenAm, "c1"), None);
      var second := BookVehicle(first.store, BookingRequest(1, 100001, 100025, TenAm, "c2"), None);
      && first.outcome.Done?
      && second.outcome.Done?
      && |second.store.bookings| == 2
      && second.store.bookings[0].startTime == second.store.bookings[1].startTime
  {
  }

  /** Book, cancel, book again: the new booking gets a new id, so cancelling
      the stale id a second time answers 404 and leaves the new booking in
      place. */
  lemma StaleIdAfterRebooking()
    ensures
      var first := BookVehicle(OneTruck, BookingRequest(1, 100001, 100020, TenAm, "c1"), None);
      var cancelled := DeleteBooking(first.store, 0, None);
      var second := BookVehicle(cancelled.store, BookingRequest(1, 100001, 100020, TenAm, "c2"), None);
      var stale := DeleteBooking(second.store, 0, None);
      && cancelled.outcome.Done?
      && second.outcome.Done?
      && second.outcome.value.booking.id == 1
      && stale == Handled(Failed(NotFound(BookingNotFound)), second.store)
  {
  }
}
