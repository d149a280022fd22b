/**
 Vehicle registration: the request body's three fields must all be present
 and truthy before a record is created.
 */
module VehicleController {
  import opened Records

  /** The request body; a field the client left out is `None`. */
  datatype VehicleRequest = VehicleRequest(name: Option<string>, capacityKg: Option<int>, tyres: Option<int>)

  /** A text field counts as given when present and non-empty. */
  predicate TruthyText(f: Option<string>)
  {
    f.Some? && f.value != ""
  }

  /** A numeric field counts as given when present and non-zero. */
  predicate TruthyNumber(f: Option<int>)
  {
    f.Some? && f.value != 0
  }

  predicate Complete(req: VehicleRequest)
  {
    TruthyText(req.name) && TruthyNumber(req.capacityKg) && TruthyNumber(req.tyres)
  }

  const FillAllDetails: string := "Fill all details"

  /** Registers a vehicle. `failure` is the error the store raises on
      create, if it is unreachable. */
  function AddVehicle(st: Store, req: VehicleRequest, failure: Option<string>): (r: Handled<Vehicle>)
    ensures !Complete(req) ==> r == Handled(Failed(ValidationError(FillAllDetails)), st)
    ensures Complete(req) && failure.Some? ==> r == Handled(Failed(StoreFailure(failure.value)), st)
    ensures r.outcome.Done? <==> Complete(req) && failure.None?
    ensures r.outcome.Done? ==>
      && r.outcome.status == 201
      && var v := r.outcome.value;
      && v.name == req.name.value
      && v.capacityKg == req.capacityKg.value
      && v.tyres == req.tyres.value
      && v.id == st.nextVehicleId
      && (IdsBelowCounters(st) ==> !HasVehicle(st.vehicles, v.id))
      && r.store == st.(vehicles := st.vehicles + [v], nextVehicleId := v.id + 1)
  {
    if !Complete(req) then
      Handled(Failed(ValidationError(FillAllDetails)), st)
    else if failure.Some? then
      Handled(Failed(StoreFailure(failure.value)), st)
    else
      var v := Vehicle(st.nextVehicleId, req.name.value, req.capacityKg.value, req.tyres.value);
      Handled(Done(201, v), st.(vehicles := st.vehicles + [v], nextVehicleId := v.id + 1))
  }

  /** Registration keeps every store invariant. */
  lemma AddVehiclePreservesValid(st: Store, req: VehicleRequest, failure: Option<string>)
    requires Valid(st)
    ensures Valid(AddVehicle(st, req, failure).store)
  {
    var r := AddVehicle(st, req, failure);
    if r.outcome.Done? {
      var vs := r.store.vehicles;
      forall i | 0 <= i < |st.bookings|
        ensures HasVehicle(vs, st.bookings[i].vehicleId)
      {
        assert HasVehicle(st.vehicles, st.bookings[i].vehicleId);
        var k :| 0 <= k < |st.vehicles| && st.vehicles[k].id == st.bookings[i].vehicleId;
        assert vs[k] == st.vehicles[k];
      }
    }
  }
}
