/** Chat messages and their collection (models/Message.model.js). */
module MessageModel {
  import opened Common

  datatype MessageType = UserMessage | SystemMessage

  /** A stored message; `sender` is null for a system message. */
  datatype Message = Message(ride: Id, sender: Option<Id>, text: string, kind: MessageType)

  /** `Message.create`: `ride` and `text` are required, `text` is stored
      trimmed, `sender` defaults to null and `type` to "user". */
  function NewMessage(ride: Option<Id>, sender: Option<Id>, text: Option<string>,
                      kind: Option<MessageType>): (r: Option<Message>)
    ensures r.Some? <==> ride.Some? && ride.value != "" && text.Some? && Trim(text.value) != ""
    ensures r.Some? ==> r.value.ride == ride.value && r.value.sender == sender
                        && r.value.text == Trim(text.value)
                        && r.value.text != [] && !IsSpace(r.value.text[0])
                        && !IsSpace(r.value.text[|r.value.text| - 1])
                        && r.value.kind == (if kind.None? then UserMessage else kind.value)
  {
    if ride.None? || ride.value == "" || text.None? || Trim(text.value) == "" then None
    else
      TrimShape(text.value);
      Some(Message(ride.value, sender, Trim(text.value),
                   if kind.None? then UserMessage else kind.value))
  }

  /** `Message.deleteMany({ ride: { $in: rides } })`. */
  function WithoutRides(msgs: seq<Message>, rides: set<Id>): (r: seq<Message>)
    ensures forall i :: 0 <= i < |r| ==> r[i].ride !in rides
    ensures forall i :: 0 <= i < |msgs| && msgs[i].ride !in rides ==> msgs[i] in r
    ensures forall i :: 0 <= i < |r| ==> r[i] in msgs
  {
    Filter(msgs, (m: Message) => m.ride !in rides)
  }

  /** The `messages` collection in insertion order. */
  class MessageCollection {
    var messages: seq<Message>

    /** `Message.create`: appends when validation passes. */
    method Create(ride: Option<Id>, sender: Option<Id>, text: Option<string>,
                  kind: Option<MessageType>) returns (r: Option<Message>)
      modifies this
      ensures r == NewMessage(ride, sender, text, kind)
      ensures messages == (if r.Some? then old(messages) + [r.value] else old(messages))
    {
      r := NewMessage(ride, sender, text, kind);
      if r.Some? {
        messages := messages + [r.value];
      }
    }

    /** `Message.deleteMany` on a set of ride ids. */
    method DeleteForRides(rides: set<Id>)
      modifies this
      ensures messages == WithoutRides(old(messages), rides)
    {
      messages := WithoutRides(messages, rides);
    }
  }
}
