/** Socket.IO as the backend uses it: the server's emits become an
    appended log, and each connected socket keeps its rooms and the events
    sent to it alone. */
module Realtime {
  import opened Common
  import opened NotificationModel

  datatype Payload =
    | ErrorText(text: string)
    | RideEndedNotice(message: string)
    /** `{ rideId, type, ride: null }` */
    | RideUpdated(rideId: Id, kind: string)
    /** `{ rideId, sender, text }`; the creation time is not modelled. */
    | ChatMessage(rideId: Id, sender: Id, text: string)
    | NotificationPayload(notification: Notification)

  datatype Emit =
    | ToRoom(room: string, event: string, payload: Payload)
    | Broadcast(event: string, payload: Payload)

  /** The `io` server. */
  class Server {
    var log: seq<Emit>

    method EmitTo(room: string, event: string, payload: Payload)
      modifies this
      ensures log == old(log) + [ToRoom(room, event, payload)]
    {
      log := log + [ToRoom(room, event, payload)];
    }

    method EmitAll(event: string, payload: Payload)
      modifies this
      ensures log == old(log) + [Broadcast(event, payload)]
    {
      log := log + [Broadcast(event, payload)];
    }
  }

  /** One connected socket. */
  class Socket {
    const userId: Id
    var rooms: set<string>
    /** `socket.emit(event, payload)` calls, in order. */
    var outbox: seq<(string, Payload)>

    /** The `connection` handler: every socket joins the room named after its user. */
    constructor (userId: Id)
      ensures this.userId == userId && rooms == {userId} && outbox == []
    {
      this.userId := userId;
      rooms := {userId};
      outbox := [];
    }

    method Join(room: string)
      modifies this
      ensures rooms == old(rooms) + {room} && outbox == old(outbox)
    {
      rooms := rooms + {room};
    }

    method Leave(room: string)
      modifies this
      ensures rooms == old(rooms) - {room} && outbox == old(outbox)
    {
      rooms := rooms - {room};
    }

    method Send(event: string, payload: Payload)
      modifies this
      ensures outbox == old(outbox) + [(event, payload)] && rooms == old(rooms)
    {
      outbox := outbox + [(event, payload)];
    }
  }
}
