/** Ride documents and the collection that stores them (models/Ride.model.js). */
module RideModel {
  import opened Common

  /** The pre-save hook rejects a ride whose participant list is longer than this. */
  const MaxParticipants: nat := 4

  datatype RideStatus = Open | Full | Expired

  /** A stored ride. `departureTime` is in milliseconds; `participants` may
      hold an id more than once, since the schema has no uniqueness rule. */
  datatype Ride = Ride(id: Id, creator: Id, source: string, destination: string,
                       departureTime: int, participants: seq<Id>, status: RideStatus)

  /** The paths handed to `Ride.create`; any of them may be absent. */
  datatype RideFields = RideFields(creator: Option<Id>, source: Option<string>,
                                   destination: Option<string>, departureTime: Option<JsDate>,
                                   participants: seq<Id>, status: Option<RideStatus>)

  /** Why a save fails: schema validation, the pre-save hook, or a clash on `_id`. */
  datatype SaveError = ValidationFailed | TooManyParticipants | DuplicateKey

  /** A required String path with `trim: true`: present and non-empty once trimmed. */
  predicate RequiredText(v: Option<string>) {
    v.Some? && Trim(v.value) != ""
  }

  /** Every participant casts to an ObjectId; the empty string does not. */
  predicate ParticipantIdsValid(participants: seq<Id>) {
    forall i :: 0 <= i < |participants| ==> participants[i] != ""
  }

  predicate FieldsValid(f: RideFields) {
    f.creator.Some? && f.creator.value != ""
    && RequiredText(f.source) && RequiredText(f.destination)
    && f.departureTime.Some? && f.departureTime.value.ValidDate?
    && ParticipantIdsValid(f.participants)
  }

  /** No leading or trailing whitespace. */
  predicate Trimmed(s: string) {
    s != [] ==> !IsSpace(s[0]) && !IsSpace(s[|s| - 1])
  }

  /** Schema validation (required paths, the trim setter, the status default),
      then the pre-save capacity hook. */
  function ValidateRide(id: Id, f: RideFields): (r: Result<Ride, SaveError>)
    ensures r.Ok? <==> FieldsValid(f) && |f.participants| <= MaxParticipants
    ensures FieldsValid(f) && |f.participants| > MaxParticipants ==> r == Err(TooManyParticipants)
    ensures r.Ok? ==> r.value.id == id && r.value.creator == f.creator.value
                      && r.value.participants == f.participants
                      && r.value.departureTime == f.departureTime.value.ms
                      && r.value.source == Trim(f.source.value) && r.value.destination == Trim(f.destination.value)
                      && r.value.source != [] && Trimmed(r.value.source)
                      && r.value.destination != [] && Trimmed(r.value.destination)
                      && r.value.status == (if f.status.None? then Open else f.status.value)
  {
    if !FieldsValid(f) then Err(ValidationFailed)
    else if |f.participants| > MaxParticipants then Err(TooManyParticipants)
    else
      TrimShape(f.source.value);
      TrimShape(f.destination.value);
      Ok(Ride(id, f.creator.value, Trim(f.source.value), Trim(f.destination.value),
              f.departureTime.value.ms, f.participants,
              if f.status.None? then Open else f.status.value))
  }

  /** The stored source and destination are the given text with the
      surrounding whitespace removed. */
  lemma StoredTextIsTrimmedInput(id: Id, f: RideFields)
    requires ValidateRide(id, f).Ok?
    ensures var s := ValidateRide(id, f).value.source;
            exists a :: 0 <= a <= |f.source.value| - |s| && OccursAt(f.source.value, s, a)
                      && (forall i :: 0 <= i < a ==> IsSpace(f.source.value[i]))
                      && (forall i :: a + |s| <= i < |f.source.value| ==> IsSpace(f.source.value[i]))
  {
    TrimShape(f.source.value);
  }

  /** Four participants pass the hook, five do not. */
  lemma CapacityBoundary(id: Id, f: RideFields)
    requires FieldsValid(f)
    ensures |f.participants| == 4 ==> ValidateRide(id, f).Ok?
    ensures |f.participants| == 5 ==> ValidateRide(id, f) == Err(TooManyParticipants)
  {
  }

  predicate UniqueIds(docs: seq<Ride>) {
    forall i, j :: 0 <= i < j < |docs| ==> docs[i].id != docs[j].id
  }

  /** What every stored ride satisfies: unique ids and castable participants. */
  predicate StoredRides(docs: seq<Ride>) {
    UniqueIds(docs) && forall i :: 0 <= i < |docs| ==> ParticipantIdsValid(docs[i].participants)
  }

  /** Position of the ride with the given `_id` (`findById`). */
  function FindIndex(docs: seq<Ride>, id: Id): (r: Option<nat>)
    ensures r.Some? ==> r.value < |docs| && docs[r.value].id == id
                        && forall j :: 0 <= j < r.value ==> docs[j].id != id
    ensures r.None? ==> forall j :: 0 <= j < |docs| ==> docs[j].id != id
  {
    if docs == [] then None
    else if docs[0].id == id then Some(0)
    else match FindIndex(docs[1..], id)
      case None => None
      case Some(k) => Some(k + 1)
  }

  function FindRide(docs: seq<Ride>, id: Id): (r: Option<Ride>)
    ensures r.Some? <==> exists j :: 0 <= j < |docs| && docs[j].id == id
    ensures r.Some? ==> r.value.id == id && r.value in docs
  {
    match FindIndex(docs, id)
    case None => None
    case Some(k) => Some(docs[k])
  }

  /** `Ride.create`: validation, then the insert, which refuses a taken `_id`. */
  function CreateResult(docs: seq<Ride>, id: Id, f: RideFields): (r: Result<Ride, SaveError>)
    ensures r.Ok? ==> FindRide(docs, id).None? && ValidateRide(id, f) == r
    ensures r.Ok? ==> StoredRides(docs) ==> StoredRides(docs + [r.value])
  {
    match ValidateRide(id, f)
    case Err(e) => Err(e)
    case Ok(ride) =>
      if FindRide(docs, id).Some? then Err(DuplicateKey)
      else
        AppendKeepsStored(docs, ride);
        Ok(ride)
  }

  /** Appending a ride whose id is new and whose participants cast keeps
      the stored-ride invariants. */
  lemma AppendKeepsStored(docs: seq<Ride>, ride: Ride)
    requires FindRide(docs, ride.id).None? && ParticipantIdsValid(ride.participants)
    ensures StoredRides(docs) ==> StoredRides(docs + [ride])
  {
    var all := docs + [ride];
    assert forall j :: 0 <= j < |docs| ==> all[j] == docs[j];
    assert all[|docs|] == ride;
  }

  /** The filter `{ _id: rideId, status: { $ne: "expired" } }`. */
  predicate Expirable(r: Ride, rideId: Id) {
    r.id == rideId && r.status != Expired
  }

  /** Position of the first document the filter matches. */
  function FindExpirable(docs: seq<Ride>, rideId: Id): (r: Option<nat>)
    ensures r.Some? ==> r.value < |docs| && Expirable(docs[r.value], rideId)
                        && forall j :: 0 <= j < r.value ==> !Expirable(docs[j], rideId)
    ensures r.None? ==> forall j :: 0 <= j < |docs| ==> !Expirable(docs[j], rideId)
  {
    if docs == [] then None
    else if Expirable(docs[0], rideId) then Some(0)
    else match FindExpirable(docs[1..], rideId)
      case None => None
      case Some(k) => Some(k + 1)
  }

  /** `findOneAndUpdate(filter, { $set: { status: "expired" } }, { new: true })`:
      the updated ride (or nothing) and the new collection. */
  function ExpireOne(docs: seq<Ride>, rideId: Id): (r: (Option<Ride>, seq<Ride>))
    ensures r.0.None? <==> forall j :: 0 <= j < |docs| ==> !Expirable(docs[j], rideId)
    ensures r.0.None? ==> r.1 == docs
    ensures r.0.Some? ==> exists k :: 0 <= k < |docs| && Expirable(docs[k], rideId)
                                      && r.1 == docs[k := docs[k].(status := Expired)]
                                      && r.0.value == r.1[k]
  {
    match FindExpirable(docs, rideId)
    case None => (None, docs)
    case Some(k) =>
      var after := docs[k := docs[k].(status := Expired)];
      (Some(after[k]), after)
  }

  /** With unique ids a second update for the same ride matches nothing,
      so the worker's side effects happen at most once per ride. */
  lemma ExpireOneOnce(docs: seq<Ride>, rideId: Id)
    requires UniqueIds(docs)
    ensures ExpireOne(ExpireOne(docs, rideId).1, rideId).0.None?
  {
    var after := ExpireOne(docs, rideId).1;
    if ExpireOne(docs, rideId).0.Some? {
      var k :| 0 <= k < |docs| && Expirable(docs[k], rideId) && after == docs[k := docs[k].(status := Expired)];
      forall j | 0 <= j < |after| ensures !Expirable(after[j], rideId) {
        if j != k {
          assert docs[j].id != docs[k].id;
        }
      }
    }
  }

  /** Setting a status keeps every stored-ride invariant. */
  lemma ExpireOneKeepsStored(docs: seq<Ride>, rideId: Id)
    requires StoredRides(docs)
    ensures StoredRides(ExpireOne(docs, rideId).1)
    ensures ExpireOne(docs, rideId).0.Some? ==> ParticipantIdsValid(ExpireOne(docs, rideId).0.value.participants)
  {
    if ExpireOne(docs, rideId).0.Some? {
      var k :| 0 <= k < |docs| && Expirable(docs[k], rideId)
               && ExpireOne(docs, rideId).1 == docs[k := docs[k].(status := Expired)]
               && ExpireOne(docs, rideId).0.value == ExpireOne(docs, rideId).1[k];
      assert ParticipantIdsValid(docs[k].participants);
    }
  }

  /** The filter `{ departureTime: { $lt: now }, status: { $ne: "expired" } }`. */
  predicate Overdue(r: Ride, now: int) {
    r.departureTime < now && r.status != Expired
  }

  predicate IsExpired(r: Ride) {
    r.status == Expired
  }

  predicate NotExpired(r: Ride) {
    r.status != Expired
  }

  /** The ids of the expired rides, as a set. */
  function ExpiredIdSet(docs: seq<Ride>): set<Id> {
    set i | 0 <= i < |docs| && IsExpired(docs[i]) :: docs[i].id
  }

  /** The filter `{ _id: { $nin: ids } }`: the documents a delete by id keeps. */
  function Unlisted(ids: seq<Id>): Ride -> bool {
    (x: Ride) => x.id !in ids
  }

  /** `updateMany(filter, { $set: { status: "expired" } })` over the collection. */
  function ExpireOverdue(docs: seq<Ride>, now: int): (r: seq<Ride>)
    ensures |r| == |docs|
    ensures forall i :: 0 <= i < |docs| ==>
              r[i] == (if Overdue(docs[i], now) then docs[i].(status := Expired) else docs[i])
  {
    if docs == [] then []
    else [if Overdue(docs[0], now) then docs[0].(status := Expired) else docs[0]]
         + ExpireOverdue(docs[1..], now)
  }

  /** The filter as a function value, so that every count uses the same term. */
  function OverdueAt(now: int): Ride -> bool {
    (x: Ride) => Overdue(x, now)
  }

  /** One more document counted by the overdue filter. */
  lemma CountSnoc(start: seq<Ride>, i: nat, now: int)
    requires i < |start|
    ensures Count(start[..i + 1], OverdueAt(now))
            == Count(start[..i], OverdueAt(now)) + (if Overdue(start[i], now) then 1 else 0)
  {
    assert start[..i + 1] == start[..i] + [start[i]];
    FilterAppend(start[..i], [start[i]], OverdueAt(now));
  }

  /** `expireOldRides` can only add expired rides: the expired count grows
      by exactly the number of overdue rides, which `modifiedCount` reports. */
  lemma {:induction false} ExpiredCountGrows(docs: seq<Ride>, now: int)
    ensures Count(ExpireOverdue(docs, now), IsExpired)
            == Count(docs, IsExpired) + Count(docs, OverdueAt(now))
  {
    if docs != [] {
      ExpiredCountGrows(docs[1..], now);
      assert ExpireOverdue(docs, now)[1..] == ExpireOverdue(docs[1..], now);
    }
  }

  /** Ids of a list of rides, in order (the `{ _id: 1 }` projection). */
  function IdsOf(docs: seq<Ride>): (r: seq<Id>)
    ensures |r| == |docs| && forall i :: 0 <= i < |docs| ==> r[i] == docs[i].id
  {
    seq(|docs|, i requires 0 <= i < |docs| => docs[i].id)
  }

  /** Removing documents keeps every stored-ride invariant. */
  lemma FilterKeepsStored(docs: seq<Ride>, p: Ride -> bool)
    requires StoredRides(docs)
    ensures StoredRides(Filter(docs, p))
  {
    FilterPairwise(docs, p, (a: Ride, b: Ride) => a.id != b.id);
  }

  /** Setting statuses keeps every stored-ride invariant. */
  lemma ExpireOverdueKeepsStored(docs: seq<Ride>, now: int)
    requires StoredRides(docs)
    ensures StoredRides(ExpireOverdue(docs, now))
  {
  }

  /** The `rides` collection in insertion order. */
  class RideCollection {
    var docs: seq<Ride>

    ghost predicate Valid()
      reads this
    {
      StoredRides(docs)
    }

    /** `Ride.create(fields)` with a freshly generated `_id`. */
    method Create(id: Id, f: RideFields) returns (r: Result<Ride, SaveError>)
      requires Valid()
      modifies this
      ensures Valid()
      ensures r == CreateResult(old(docs), id, f)
      ensures docs == (if r.Ok? then old(docs) + [r.value] else old(docs))
    {
      r := CreateResult(docs, id, f);
      if r.Ok? {
        docs := docs + [r.value];
      }
    }
    /** `findOneAndUpdate` for the expiry worker. */
    method FindOneAndExpire(rideId: Id) returns (r: Option<Ride>)
      requires Valid()
      modifies this
      ensures Valid()
      ensures (r, docs) == ExpireOne(old(docs), rideId)
      ensures r.Some? ==> ParticipantIdsValid(r.value.participants)
    {
      ExpireOneKeepsStored(docs, rideId);
      r := ExpireOne(docs, rideId).0;
      docs := ExpireOne(docs, rideId).1;
    }

    /** `updateMany` for the periodic expiry, document by document; returns
        `modifiedCount`. */
    method UpdateManyExpire(now: int) returns (modifiedCount: nat)
      requires Valid()
      modifies this
      ensures Valid()
      ensures docs == ExpireOverdue(old(docs), now)
      ensures modifiedCount == Count(old(docs), OverdueAt(now))
    {
      ghost var start := docs;
      ghost var target := ExpireOverdue(start, now);
      ExpireOverdueKeepsStored(start, now);
      var i := 0;
      modifiedCount := 0;
      while i < |docs|
        invariant 0 <= i <= |docs| == |start|
        invariant docs[..i] == target[..i] && docs[i..] == start[i..]
        invariant modifiedCount == Count(start[..i], OverdueAt(now))
      {
        if Overdue(docs[i], now) {
          docs := docs[i := docs[i].(status := Expired)];
          modifiedCount := modifiedCount + 1;
        }
        CountSnoc(start, i, now);
        i := i + 1;
      }
      assert start[..i] == start && docs == docs[..i] && target == target[..i];
    }

    /** `Ride.find({ status: "expired" }, { _id: 1 })`. */
    method FindExpiredIds() returns (ids: seq<Id>)
      ensures ids == IdsOf(Filter(docs, IsExpired))
    {
      ids := IdsOf(Filter(docs, IsExpired));
    }

    /** `Ride.deleteMany({ _id: { $in: ids } })`; returns `deletedCount`. */
    method DeleteByIds(ids: seq<Id>) returns (deletedCount: nat)
      requires Valid()
      modifies this
      ensures Valid()
      ensures docs == Filter(old(docs), Unlisted(ids))
      ensures deletedCount == |old(docs)| - |docs|
    {
      FilterKeepsStored(docs, Unlisted(ids));
      var before := |docs|;
      docs := Filter(docs, Unlisted(ids));
      deletedCount := before - |docs|;
    }
  }
}
