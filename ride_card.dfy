/** One ride card (components/RideCard.tsx): whether it renders at all,
    the creator's name, the destination label, and which of the Join, Chat,
    Delete and Leave buttons it shows to the signed-in user at time `now`. */
module RideCard {
  import opened Common
  import opened ClientModel
  import opened DisplayName
  import opened Rules

  /** The card renders nothing for a ride without a truthy `_id`, without a
      creator whose `_id` is a string, or without a participants array. */
  predicate Renders(r: ClientRide) {
    Truthy(r.id) && r.creator.Some? && r.creator.value.id.JsString? && r.participants.Some?
  }

  /** `new Date(ride.departureTime)` as the rules see it: a missing
      departure time gives an invalid date. */
  function DepartureDate(r: ClientRide): JsDate {
    if r.departureTime.Some? then ValidDate(r.departureTime.value.ms) else InvalidDate
  }

  /** `new Date(ride.departureTime) <= new Date()`; an invalid date is
      never earlier than now. */
  predicate IsExpired(r: ClientRide, now: int) {
    r.departureTime.Some? && r.departureTime.value.ms <= now
  }

  predicate IsCreator(r: ClientRide, user: Option<ClientUser>) {
    user.Some? && r.creator.Some? && r.creator.value.id == JsString(user.value.id)
  }

  predicate IsParticipant(r: ClientRide, user: Option<ClientUser>) {
    user.Some? && r.participants.Some? && user.value.id in r.participants.value
  }

  /** The Join button: a signed-in user who is neither creator nor
      participant of a ride that has not departed and has fewer than four
      participants. */
  predicate CanJoin(r: ClientRide, user: Option<ClientUser>, now: int) {
    user.Some? && !IsExpired(r, now) && !IsCreator(r, user) && !IsParticipant(r, user)
    && r.participants.Some? && |r.participants.value| < 4
  }

  /** `destinationLabel` */
  function DestinationLabel(destination: Option<string>): (r: string)
    ensures r == "Airport" <==> destination == Some("airport")
    ensures r == "Campus" <==> destination == Some("campus")
    ensures destination != Some("airport") && destination != Some("campus") ==> r == "—"
  {
    if destination == Some("airport") then "Airport"
    else if destination == Some("campus") then "Campus"
    else "—"
  }

  /** What a rendered card shows. */
  datatype Card = Card(
    activeTitle: bool,       // "Active Ride" rather than "Available Ride"
    creatorBadge: bool,
    creatorName: string,
    destinationLabel: string,
    join: bool,
    chat: bool,
    delete: bool,
    leave: bool)

  /** The card for `r`, or `None` when it renders nothing. */
  function View(r: ClientRide, user: Option<ClientUser>, now: int): (c: Option<Card>)
    ensures c.None? <==> !Renders(r)
    ensures c.Some? ==> c.value.join == CanJoin(r, user, now)
    ensures c.Some? ==> (c.value.chat <==> (IsParticipant(r, user) || IsCreator(r, user)) && !IsExpired(r, now))
    ensures c.Some? ==> (c.value.delete <==> IsCreator(r, user) && !IsExpired(r, now))
    ensures c.Some? ==> (c.value.leave <==> IsParticipant(r, user) && !IsCreator(r, user))
    ensures c.Some? ==> c.value.creatorName == CreatorName(r.creator.value.email)
    ensures c.Some? ==> c.value.activeTitle == IsParticipant(r, user) && c.value.creatorBadge == IsCreator(r, user)
    ensures c.Some? ==> c.value.destinationLabel == DestinationLabel(r.destination)
                        && (c.value.destinationLabel == "—" <==> r.destination !in {Some("airport"), Some("campus")})
  {
    if !Renders(r) then None
    else
      Some(Card(
        IsParticipant(r, user),
        IsCreator(r, user),
        CreatorName(r.creator.value.email),
        DestinationLabel(r.destination),
        CanJoin(r, user, now),
        (IsParticipant(r, user) || IsCreator(r, user)) && !IsExpired(r, now),
        IsCreator(r, user) && !IsExpired(r, now),
        IsParticipant(r, user) && !IsCreator(r, user)))
  }

  /** The card's expiry test is the rules' `isRideExpired` on the same date. */
  lemma CardExpiryIsRule(r: ClientRide, now: int)
    ensures IsExpired(r, now) <==> IsRideExpired(DepartureDate(r), now)
  {
  }

  /** Join never appears beside Chat, Delete or Leave, and Delete and Leave
      never appear together. */
  lemma ButtonsExclusive(r: ClientRide, user: Option<ClientUser>, now: int)
    requires View(r, user, now).Some?
    ensures var c := View(r, user, now).value;
            !(c.join && (c.chat || c.delete || c.leave)) && !(c.delete && c.leave)
  {
  }

  /** A user offered Join passes the server's capacity rule and is not
      already on the ride, and the ride has not departed by the rules. */
  lemma JoinOfferedMeetsRules(r: ClientRide, user: Option<ClientUser>, now: int)
    requires View(r, user, now).Some? && View(r, user, now).value.join
    ensures CanJoinRideCapacity(|r.participants.value|, Undefined)
    ensures !IsCreatorAutoJoined(user.value.id, r.participants)
    ensures !IsRideExpired(DepartureDate(r), now)
  {
  }

  /** Signed out, a card offers no button at all. */
  lemma SignedOutSeesNoButtons(r: ClientRide, now: int)
    requires View(r, None, now).Some?
    ensures var c := View(r, None, now).value;
            !c.join && !c.chat && !c.delete && !c.leave && !c.activeTitle && !c.creatorBadge
  {
  }
}
