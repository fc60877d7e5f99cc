/** POST /rides (routes/ride.routes.js): create a ride with the requester
    as creator and first participant. */
module RideRoutes {
  import opened Common
  import opened RideModel

  datatype CreateRideResponse =
    | Created201(ride: Ride)
    | MissingFields400
    | NotInFuture400
    | ServerError500

  /** The request body; `departureTime` is whatever `new Date(...)` makes of it. */
  datatype CreateRideRequest = CreateRideRequest(source: Option<string>, destination: Option<string>,
                                                 departureTime: Option<string>)

  /** The fields handed to `Ride.create`. */
  function NewRideFields(userId: Id, source: string, destination: string, departure: JsDate): RideFields {
    RideFields(Some(userId), Some(source), Some(destination), Some(departure), [userId], Some(Open))
  }

  /** The handler's answer on a store holding `docs`. `parse` stands for
      `new Date(departureTime)`; `now` for `new Date()`; `newId` for the
      generated `_id`. An Invalid Date compares false with `<=`, passes the
      future check, and fails the cast inside `Ride.create`. */
  function CreateRideOutcome(docs: seq<Ride>, userId: Id, req: CreateRideRequest, parse: string -> JsDate,
                             now: int, newId: Id): (r: CreateRideResponse)
    ensures r == MissingFields400 <==> !Truthy(req.source) || !Truthy(req.destination) || !Truthy(req.departureTime)
    ensures r == NotInFuture400 <==> Truthy(req.source) && Truthy(req.destination) && Truthy(req.departureTime)
                                     && parse(req.departureTime.value).ValidDate?
                                     && parse(req.departureTime.value).ms <= now
    ensures r.Created201? ==>
              r.ride.id == newId && r.ride.creator == userId && r.ride.participants == [userId]
              && r.ride.status == Open && r.ride.departureTime > now
              && parse(req.departureTime.value).ValidDate?
              && r.ride.departureTime == parse(req.departureTime.value).ms
              && r.ride.source == Trim(req.source.value) && r.ride.destination == Trim(req.destination.value)
              && FindRide(docs, newId).None?
  {
    if !Truthy(req.source) || !Truthy(req.destination) || !Truthy(req.departureTime) then MissingFields400
    else
      var when := parse(req.departureTime.value);
      if when.ValidDate? && when.ms <= now then NotInFuture400
      else match CreateResult(docs, newId, NewRideFields(userId, req.source.value, req.destination.value, when))
        case Ok(ride) => Created201(ride)
        case Err(_) => ServerError500
  }

  /** A creation always succeeds when the fields are non-blank, the time is
      a real date after now and the id is new. */
  lemma CreatesWhenValid(docs: seq<Ride>, userId: Id, req: CreateRideRequest, parse: string -> JsDate,
                         now: int, newId: Id)
    requires userId != ""
    requires req.source.Some? && Trim(req.source.value) != ""
    requires req.destination.Some? && Trim(req.destination.value) != ""
    requires Truthy(req.departureTime) && parse(req.departureTime.value).ValidDate?
             && parse(req.departureTime.value).ms > now
    requires FindRide(docs, newId).None?
    ensures CreateRideOutcome(docs, userId, req, parse, now, newId).Created201?
  {
    assert req.source.value != [] && req.destination.value != [];
    var f := NewRideFields(userId, req.source.value, req.destination.value, parse(req.departureTime.value));
    assert ParticipantIdsValid(f.participants);
    assert FieldsValid(f);
    assert ValidateRide(newId, f).Ok?;
  }

  /** The handler on the ride store: the store changes only on 201, and then
      by exactly the created ride. */
  method CreateRide(store: RideCollection, userId: Id, req: CreateRideRequest, parse: string -> JsDate,
                    now: int, newId: Id) returns (r: CreateRideResponse)
    requires store.Valid()
    modifies store
    ensures store.Valid()
    ensures r == CreateRideOutcome(old(store.docs), userId, req, parse, now, newId)
    ensures store.docs == (if r.Created201? then old(store.docs) + [r.ride] else old(store.docs))
  {
    if !Truthy(req.source) || !Truthy(req.destination) || !Truthy(req.departureTime) {
      return MissingFields400;
    }
    var when := parse(req.departureTime.value);
    if when.ValidDate? && when.ms <= now {
      return NotInFuture400;
    }
    var created := store.Create(newId, NewRideFields(userId, req.source.value, req.destination.value, when));
    if created.Ok? {
      r := Created201(created.value);
    } else {
      r := ServerError500;
    }
  }
}
