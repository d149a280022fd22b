# Fleet booking engine — verified Dafny model

This project models the booking engine of a small vehicle-booking API
(`src/controllers/bookingController.js`), the vehicle registration handler
(`src/controllers/vehicleController.js`) and the ride-duration estimator
whose behaviour is fixed by `src/tests/calculateDuration.test.js`.

The document store is replaced by an immutable `Store` holding two
sequences, `vehicles` and `bookings`, in insertion order. Each HTTP handler
becomes a pure function. It takes the store, the request fields and an
optional store error. It returns an `Outcome`: either `Done(status, body)`
or `Failed(error)`, where the error is one of `NotFound`, `Conflict`,
`ValidationError` or `StoreFailure`. Handlers that write also return the
store after the call (`Handled`).

Modules, one per component:

- `Duration` (`duration.dfy`): `CalculateDuration(from, to) = |from - to| mod 24`
  hours. `WindowEnd` is the start plus that many hours of 3 600 000 ms.
- `Interval` (`interval.dfy`): the strict half-open overlap test
  `s1 < e2 && e1 > s2` shared by the conflict check and the availability query.
- `Records` (`records.dfy`): vehicle and booking records, the store, outcomes,
  lookups by id, the id counters, and the store invariants gathered in
  `Valid`. The invariants are: every id lies below its counter; unique ids;
  no two bookings of one vehicle overlap; every window equals the estimated
  duration; every booking names a registered vehicle.
- `VehicleController` (`vehicle_controller.dfy`): `AddVehicle`.
- `BookingController` (`booking_controller.dfy`): `GetAvailableVehicles`,
  `BookVehicle` with its conflict check `ConflictingBooking`, `GetBookings`
  (filter by customer, insertion sort by start time, latest first, vehicle
  resolved), and `DeleteBooking`.
- `BookingProperties` (`booking_properties.dfy`): invariant preservation,
  runs of several handler calls, and lemmas that relate handlers to one
  another.
- `Scenarios` (`scenarios.dfy`): examples of the controllers' behaviour,
  including the cases their tests exercise, stated as lemmas about concrete
  stores.

Two consequences of the strict overlap test are worth knowing:

- A window overlaps itself only when it is non-empty
  (`Interval.OverlapsItselfIffNonEmpty`).
- The estimate is 0 hours whenever the pincodes differ by a multiple of 24,
  so the booking handler stores zero-length windows. Two zero-hour bookings
  of one vehicle at the same instant do not conflict
  (`Scenarios.ZeroHourBookingsCoexist`). A zero-hour window that falls
  strictly inside another booking does conflict
  (`Interval.EmptyWindowOverlapsIffStrictlyInside`).

## Model

| member | source | states |
|---|---|---|
| Duration.CalculateDuration | src/tests/calculateDuration.test.js:11-14 | the estimate is an hour count in [0, 23] and is congruent to the pincode distance modulo 24 |
| Duration.WindowEnd | src/controllers/bookingController.js:46-48 | a window ends a whole number of hours after it starts, at most 23 hours later, never before the start |
| Duration.DurationSymmetric | src/tests/calculateDuration.test.js:6-7 | swapping the two pincodes gives the same estimate |
| Duration.DurationIsDistanceRemainder | src/tests/calculateDuration.test.js:5-14 | any hour count in [0, 23] congruent to the distance modulo 24 is the estimate, so the estimate is uniquely determined |
| Duration.DurationWrapsForward | src/tests/calculateDuration.test.js:11-14 | moving the destination a whole number of 24-code steps further away leaves the estimate unchanged |
| Duration.DurationZeroAtMultiplesOf24 | src/tests/calculateDuration.test.js:12-13 | codes a multiple of 24 apart, in either direction, give a zero-hour ride |
| Duration.DurationTestValues | src/tests/calculateDuration.test.js:6-13 | 100001/100020 in both orders give 19, 110001/110005 gives 4, and distances 24 and 48 give 0 |
| Interval.OverlapsSymmetric | src/controllers/bookingController.js:21 | the overlap test does not depend on which window is given first |
| Interval.TouchingWindowsDoNotOverlap | src/controllers/bookingController.js:52 | a window ending exactly where another starts does not overlap it, in either order |
| Interval.OverlapsItselfIffNonEmpty | src/controllers/bookingController.js:52 | a window overlaps itself exactly when it is non-empty |
| Interval.OverlapsIffSharedInstant | src/controllers/bookingController.js:19-23 | for non-empty windows the strict test holds exactly when some instant lies in both |
| Interval.EmptyWindowOverlapsIffStrictlyInside | src/controllers/bookingController.js:50-53 | a zero-length window at t overlaps another window exactly when t lies strictly inside it |
| Records.FindVehicle | src/controllers/bookingController.js:43-44 | the lookup finds a vehicle exactly when one with that id is registered, and what it finds is that record |
| Records.IndexOfBooking | src/controllers/bookingController.js:87 | the lookup finds a position exactly when a booking with that id exists; it is the first such position |
| Records.Error.Status | src/controllers/bookingController.js:44-70 | a missing record answers 404, a store error 500, and a conflict or a validation failure 400 |
| VehicleController.AddVehicle | src/controllers/vehicleController.js:4-19 | a missing or falsy name, capacity or tyre count is rejected with "Fill all details" and the store is unchanged; with all three given, a store error is answered with its message and the store is unchanged; otherwise exactly one vehicle carrying exactly the three fields is appended and returned with 201; its id is the vehicle counter, which no stored vehicle of a valid store carries, and the counter moves past it |
| VehicleController.AddVehiclePreservesValid | src/controllers/vehicleController.js:10-15 | registering a vehicle keeps every store invariant |
| BookingController.OverlappingBookings | src/controllers/bookingController.js:19-23 | the scan keeps exactly the bookings, of any vehicle, whose window overlaps the query window |
| BookingController.VehicleIdsOf | src/controllers/bookingController.js:25 | one id per booking, and an id is listed exactly when some booking names that vehicle |
| BookingController.Unbooked | src/controllers/bookingController.js:18-31 | exactly the vehicles meeting the capacity floor whose id is not booked are kept, each as often as it is stored, each tagged with the same duration |
| BookingController.GetAvailableVehicles | src/controllers/bookingController.js:5-37 | a store error gives 500 with its message; otherwise 200 with exactly the vehicles with capacity at least the floor and no booking overlapping the window, each as often as it is stored, each tagged with the estimated duration |
| BookingController.ConflictingBooking | src/controllers/bookingController.js:50-53 | finds nothing exactly when no booking of that vehicle overlaps the window; anything it finds is such a booking |
| BookingController.BookVehicle | src/controllers/bookingController.js:39-72 | a store error gives 500 and an unknown vehicle gives 404 "Vehicle not found", both with the store unchanged; an overlapping booking of the same vehicle gives 400 "Vehicle already booked", store unchanged; success happens exactly otherwise and appends one booking with the request's vehicle, pincodes, customer and start, end = start + duration * 3600000 ms, returned with 201 and its vehicle resolved; its id is the booking counter, which no stored booking of a valid store carries, and the counter moves past it |
| BookingController.ForCustomer | src/controllers/bookingController.js:77 | keeps exactly the customer's bookings, each as often as it occurs in the store |
| BookingController.InsertKeepsSorted | src/controllers/bookingController.js:77 | inserting into a list ordered by start time, latest first, keeps it ordered |
| BookingController.SortByStartDesc | src/controllers/bookingController.js:77 | the result is a permutation of its input ordered by start time, latest first |
| BookingController.PopulateAll | src/controllers/bookingController.js:77 | resolving vehicles keeps the bookings and their order, and each booking gets the registered vehicle with its id, or none when that vehicle is gone |
| BookingController.GetBookings | src/controllers/bookingController.js:74-82 | a store error gives 500; otherwise 200 with exactly the customer's bookings, as a multiset, ordered by start time, latest first, each with its vehicle resolved; the store is not changed |
| BookingController.DeleteBooking | src/controllers/bookingController.js:84-97 | a store error gives 500 and an absent id gives 404 "Booking not found", both with the store unchanged; otherwise exactly the record with that id is removed, the vehicles, the other bookings and both id counters kept, and 200 "Booking cancelled successfully" is returned |
| BookingController.RemovalKeepsOthers | src/controllers/bookingController.js:87 | removing one position keeps every booking with another id, and with unique ids leaves none with the removed id |
| BookingProperties.BookVehiclePreservesValid | src/controllers/bookingController.js:50-64 | if no two bookings of one vehicle overlap before a booking call, none do after, and the other invariants also hold |
| BookingProperties.DeleteBookingPreservesValid | src/controllers/bookingController.js:87 | cancelling a booking keeps every store invariant |
| BookingProperties.RemovalKeepsPairwise | src/controllers/bookingController.js:87 | removing one booking from a valid store leaves a valid store |
| BookingProperties.OtherVehiclesNeverConflict | src/controllers/bookingController.js:50-53 | adding a booking of another vehicle, with any window, changes neither whether a booking call fails nor the error it reports |
| BookingProperties.AvailableIffBookable | src/controllers/bookingController.js:15-55 | a registered vehicle meeting the capacity floor is listed as available for a window exactly when booking it with the same pincodes and start would succeed |
| BookingProperties.CancelledBookingNotListed | src/controllers/bookingController.js:84-93 | after a successful cancellation no customer's listing contains the cancelled booking |
| BookingProperties.CancelKeepsOtherBookingsListed | src/controllers/bookingController.js:84-93 | a cancellation keeps every booking with a different id in its customer's listing |
| BookingProperties.StepKeepsValid | src/controllers/bookingController.js:39-97 | each writing handler call, whatever its outcome, keeps every store invariant |
| BookingProperties.EmptyStoreValid | src/controllers/bookingController.js:39-97 | an empty database satisfies every store invariant, so with RunKeepsValid every store reachable from it is valid |
| BookingProperties.RunKeepsValid | src/controllers/bookingController.js:39-97 | any sequence of handler calls from a valid store ends in a valid store |
| BookingProperties.CountersNeverDecrease | src/controllers/bookingController.js:57-64 | no sequence of handler calls moves either id counter back, so cancelling never frees an id |
| BookingProperties.CancelledIdNeverReissued | src/controllers/bookingController.js:57-64 | an id in use in a valid store, even after it is cancelled, is never given to a booking created by any later sequence of calls |
| Scenarios.NineteenHourBookingEnd | src/controllers/bookingController.js:46-48 | booking 100001 to 100020 at 2024-01-01T10:00Z ends at 2024-01-02T05:00Z |
| Scenarios.TouchingWindowsBothBook | src/controllers/bookingController.js:50-55 | [10:00, 15:00) then [15:00, 20:00) of one truck both succeed, and repeating [10:00, 15:00) is a 400 conflict |
| Scenarios.ZeroHourBookingsCoexist | src/controllers/bookingController.js:50-55 | two zero-hour bookings of one truck at the same instant are both stored |
| Scenarios.UnknownVehicleNotFound | src/tests/bookingController.test.js:58-63 | booking an unregistered vehicle answers 404 and stores nothing |
| Scenarios.FreeTruckIsAvailable | src/tests/bookingController.test.js:21-33 | with no bookings the truck is listed with its estimated duration |
| Scenarios.AvailabilityStoreError | src/tests/bookingController.test.js:35-42 | a store error in the availability query answers 500 with the error's message |
| Scenarios.RegisterTruck | src/tests/vehicleController.test.js:20-45 | registering Truck A, 1000 kg, 6 tyres creates exactly that vehicle and answers 201 with it |
| Scenarios.IncompleteVehicleRejected | src/tests/vehicleController.test.js:47-57 | a body with only a name, or with zero tyres, answers "Fill all details" and creates nothing |
| Scenarios.RegisterStoreError | src/tests/vehicleController.test.js:59-72 | a store error on create answers 500 with "Database error" and creates nothing |
| Scenarios.StaleIdAfterRebooking | src/controllers/bookingController.js:84-93 | after book, cancel and book again the new booking has a new id, so cancelling the old id again answers 404 and keeps the new booking |
| Scenarios.CancelScenario | src/tests/bookingController.test.js:84-97 | cancelling an unknown id answers 404; cancelling a stored booking answers 200 and empties its customer's listing |

## Left out

- HTTP plumbing: request and response objects, routes (`src/routes/*.js`) and server start-up (`src/server.js`) are I/O. Status codes and messages are carried in the outcome instead.
- Parsing and coercion: `Number(...)`, `new Date(...)`, NaN, Invalid Date and string pincodes are not modelled. Inputs are taken as well-formed integers; times are integer milliseconds and capacities integer kilograms (fractional capacities are not modelled).
- `calculateDuration`: `src/utils/calculateDuration.js` is not part of this model. It is defined as `|from - to| mod 24`, the function its tests pin down.
- Store mechanics: ObjectIds, `toString` comparison and query syntax are left out. Fresh ids come from two counters in the store, one per collection, that only ever grow. So an id is never handed out twice, even after its record is deleted, as with ObjectIds. The `createdAt`/`updatedAt` timestamps are left out of the records and of the tagged vehicles in the availability answer.
- Check-then-act race: the gap between the conflict read and the insert is a concurrency issue and is not modelled. The model is sequential.
- BookVehicle: a store error is modelled only as an unreachable store, which fails the first call (the vehicle lookup). A failure during `populate` after the insert is not modelled. In the source that case answers 500 while the booking stays stored.
- BookVehicle: the required-field validation of the booking schema is not modelled. In the source an empty or missing `customerId`, or a missing pincode, fails `Booking.create` and answers 500; the model accepts any customer string.
- GetAvailableVehicles, GetBookings, DeleteBooking: store errors are likewise modelled as an unreachable store that fails the handler's first call.
- GetAvailableVehicles: the order of the listing is not promised; the vehicle query is unsorted.
- GetBookings: the order among bookings with equal start times is left unspecified. The store's sort does not fix it, so only the permutation and the descending order are promised.
- DeleteBooking: removes the first booking with the id. This is the same record `findByIdAndDelete` removes whenever ids are unique, which `Valid` guarantees.
