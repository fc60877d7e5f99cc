/** The chat socket (sockets/chat.socket.js): the token check on connect,
    and the ordered guard chains of `join-ride` and `send-message`. */
module ChatSocket {
  import opened Common
  import opened RideModel
  import opened UserModel
  import opened MessageModel
  import opened Realtime

  const MaxMessageLength: nat := 500

  /** The `io.use` middleware: `verify` stands for `jwt.verify` with the
      server's secret and yields the token's `userId`, or None when the
      token does not verify. */
  function Authenticate(token: Option<string>, verify: string -> Option<Id>): (r: Result<Id, string>)
    ensures r.Ok? <==> Truthy(token) && verify(token.value).Some?
    ensures r.Ok? ==> r.value == verify(token.value).value
    ensures !Truthy(token) ==> r == Err("Unauthenticated: No token provided")
  {
    if !Truthy(token) then Err("Unauthenticated: No token provided")
    else match verify(token.value)
      case None => Err("Unauthenticated: Invalid token")
      case Some(id) => Ok(id)
  }

  // ---------------------------------------------------------------------
  // join-ride

  /** `JoinCastError`: `Ride.findById` rejects an id that does not cast to
      an ObjectId; the rejection escapes the async handler, so nothing is
      emitted and nothing is joined. */
  datatype JoinOutcome = JoinRideNotFound | JoinRideExpired | JoinDenied | Joined | JoinCastError

  function JoinDecision(ride: Option<Ride>, userId: Id): (r: JoinOutcome)
    ensures r == JoinRideNotFound <==> ride.None?
    ensures r == JoinRideExpired <==> ride.Some? && ride.value.status == Expired
    ensures r == JoinDenied <==> ride.Some? && ride.value.status != Expired && userId !in ride.value.participants
    ensures r == Joined <==> ride.Some? && ride.value.status != Expired && userId in ride.value.participants
  {
    if ride.None? then JoinRideNotFound
    else if ride.value.status == Expired then JoinRideExpired
    else if userId !in ride.value.participants then JoinDenied
    else Joined
  }

  function JoinErrorText(o: JoinOutcome): string {
    match o
    case JoinRideNotFound => "Ride not found"
    case JoinRideExpired => "Ride has Expired"
    case _ => "Access denied to this ride chat"
  }

  /** The `join-ride` handler: a room is joined only on success, and every
      failure sends one "error" event to the socket. */
  method JoinRide(sock: Socket, rides: seq<Ride>, rideId: Id) returns (o: JoinOutcome)
    modifies sock
    ensures o == (if rideId == "" then JoinCastError else JoinDecision(FindRide(rides, rideId), sock.userId))
    ensures o == JoinCastError ==> sock.rooms == old(sock.rooms) && sock.outbox == old(sock.outbox)
    ensures o == Joined ==> sock.rooms == old(sock.rooms) + {rideId} && sock.outbox == old(sock.outbox)
    ensures o != Joined && o != JoinCastError ==>
              sock.rooms == old(sock.rooms)
              && sock.outbox == old(sock.outbox) + [("error", ErrorText(JoinErrorText(o)))]
  {
    if rideId == "" {
      return JoinCastError;
    }
    o := JoinDecision(FindRide(rides, rideId), sock.userId);
    if o == Joined {
      sock.Join(rideId);
    } else {
      sock.Send("error", ErrorText(JoinErrorText(o)));
    }
  }

  // ---------------------------------------------------------------------
  // send-message

  /** `SendCastError`: as for join-ride, `Ride.findById` on an id that does
      not cast rejects before any check, and nothing is emitted. */
  datatype SendOutcome =
    UserNotFound | UserBanned | RideEnded | NotParticipant | EmptyMessage | TooLong | Sent | SendCastError

  /** The ban test as written reads `user.isPermanentlyBanned`, a path the
      User schema does not have, so only the temporary ban counts. */
  predicate BannedAsWritten(u: User, now: int) {
    TemporarilyBanned(u, now)
  }

  /** A permanently banned user without a running temporary ban passes the
      ban test as written. */
  lemma PermanentBanIgnoredAsWritten(now: int)
    ensures var u := User("u1", "a@learner.manipal.edu", true, UserRole, 3, None, true);
            Banned(u, now) && !BannedAsWritten(u, now)
  {
  }

  /** The guard chain once the ban test has given `banned`; the first
      failing guard decides. */
  function SendGuards(user: Option<User>, banned: bool, ride: Option<Ride>, userId: Id,
                      content: Option<string>): (r: SendOutcome)
    ensures r == UserBanned <==> user.Some? && banned
  {
    if user.None? then UserNotFound
    else if banned then UserBanned
    else if ride.None? || ride.value.status == Expired then RideEnded
    else if userId !in ride.value.participants then NotParticipant
    else if content.None? || Trim(content.value) == "" then EmptyMessage
    else if JsLength(content.value) > MaxMessageLength then TooLong
    else Sent
  }

  /** The guard chain with the corrected ban test. */
  function SendDecision(user: Option<User>, ride: Option<Ride>, userId: Id, content: Option<string>,
                        now: int): (r: SendOutcome)
    ensures r == UserNotFound <==> user.None?
    ensures r == UserBanned <==> user.Some? && Banned(user.value, now)
    ensures r == RideEnded <==> user.Some? && !Banned(user.value, now)
                                && (ride.None? || ride.value.status == Expired)
    ensures r == NotParticipant <==> user.Some? && !Banned(user.value, now)
                                     && ride.Some? && ride.value.status != Expired
                                     && userId !in ride.value.participants
    ensures r in {EmptyMessage, TooLong, Sent} <==>
              user.Some? && !Banned(user.value, now) && ride.Some? && ride.value.status != Expired
              && userId in ride.value.participants
    ensures r == Sent ==> content.Some? && Trim(content.value) != "" && JsLength(content.value) <= MaxMessageLength
    ensures r == EmptyMessage <==> r in {EmptyMessage, TooLong, Sent} && (content.None? || Trim(content.value) == "")
  {
    SendGuards(user, user.Some? && Banned(user.value, now), ride, userId, content)
  }

  /** The guard chain as written, with the ban test of line 60. */
  function SendDecisionAsWritten(user: Option<User>, ride: Option<Ride>, userId: Id, content: Option<string>,
                                 now: int): (r: SendOutcome)
    ensures r == UserBanned <==> user.Some? && TemporarilyBanned(user.value, now)
  {
    SendGuards(user, user.Some? && BannedAsWritten(user.value, now), ride, userId, content)
  }

  /** The send path as written answers like the corrected one for every
      input except a permanently banned sender with no running temporary
      ban, who gets past the ban test instead of "You are banned...". */
  lemma SendAgreesWithoutPermanentFlag(user: Option<User>, ride: Option<Ride>, userId: Id,
                                       content: Option<string>, now: int)
    ensures SendDecisionAsWritten(user, ride, userId, content, now) == SendDecision(user, ride, userId, content, now)
            <==> !(user.Some? && user.value.isPermanantlyBanned && !TemporarilyBanned(user.value, now))
  {
    if user.Some? && user.value.isPermanantlyBanned && !TemporarilyBanned(user.value, now) {
      assert SendDecision(user, ride, userId, content, now) == UserBanned;
      assert SendDecisionAsWritten(user, ride, userId, content, now) != UserBanned;
    } else {
      assert (user.Some? && Banned(user.value, now)) == (user.Some? && BannedAsWritten(user.value, now));
    }
  }

  /** For text of characters from the Basic Multilingual Plane that is not
      blank, up to 500 characters go through and 501 or more do not. */
  lemma LengthBoundary(user: User, ride: Ride, now: int, text: string)
    requires !Banned(user, now) && ride.status != Expired && user.id in ride.participants
    requires text != [] && !IsSpace(text[0])
    requires forall i :: 0 <= i < |text| ==> text[i] as int < 0x1_0000
    ensures |text| <= MaxMessageLength ==> SendDecision(Some(user), Some(ride), user.id, Some(text), now) == Sent
    ensures |text| > MaxMessageLength ==> SendDecision(Some(user), Some(ride), user.id, Some(text), now) == TooLong
  {
    TrimEmptyIff(text);
  }

  function SendErrorText(o: SendOutcome): string {
    match o
    case UserNotFound => "User not found"
    case UserBanned => "You are banned from Conversing in this chat"
    case NotParticipant => "Access denied to this ride chat"
    case EmptyMessage => "Message cannot be empty"
    case _ => "Message too long"
  }

  /** The `send-message` handler. */
  method SendMessage(sock: Socket, io: Server, users: seq<User>, rides: seq<Ride>,
                     messages: MessageCollection, rideId: Id, content: Option<string>, now: int)
    returns (o: SendOutcome)
    modifies sock, io, messages
    ensures o == if rideId == "" then SendCastError
                 else SendDecision(FindUser(users, sock.userId), FindRide(rides, rideId), sock.userId, content, now)
    ensures o == SendCastError ==> sock.rooms == old(sock.rooms) && sock.outbox == old(sock.outbox)
    ensures o == Sent ==>
              messages.messages == old(messages.messages)
                                   + [Message(rideId, Some(sock.userId), Trim(content.value), UserMessage)]
              && io.log == old(io.log) + [ToRoom(rideId, "new-message",
                                                 ChatMessage(rideId, sock.userId, Trim(content.value)))]
              && sock.rooms == old(sock.rooms) && sock.outbox == old(sock.outbox)
    ensures o != Sent ==> messages.messages == old(messages.messages) && io.log == old(io.log)
    ensures o == RideEnded ==>
              sock.rooms == old(sock.rooms) - {rideId}
              && sock.outbox == old(sock.outbox) + [("ride-ended", RideEndedNotice("This ride is no longer active"))]
    ensures o !in {RideEnded, Sent, SendCastError} ==>
              sock.rooms == old(sock.rooms)
              && sock.outbox == old(sock.outbox) + [("error", ErrorText(SendErrorText(o)))]
  {
    if rideId == "" {
      return SendCastError;
    }
    var ride := FindRide(rides, rideId);
    var user := FindUser(users, sock.userId);
    o := SendDecision(user, ride, sock.userId, content, now);
    if o == RideEnded {
      sock.Send("ride-ended", RideEndedNotice("This ride is no longer active"));
      sock.Leave(rideId);
      return;
    }
    if o != Sent {
      sock.Send("error", ErrorText(SendErrorText(o)));
      return;
    }
    var m := messages.Create(Some(rideId), Some(sock.userId), content, None);
    io.EmitTo(rideId, "new-message", ChatMessage(rideId, sock.userId, m.value.text));
  }
}
