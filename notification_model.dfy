/** In-app notifications (models/Notification.model.js). */
module NotificationModel {
  import opened Common

  /** How long a read notification is kept before the expiry index removes it. */
  const TwoDays: int := 2 * 24 * 60 * 60 * 1000

  datatype NotificationType = RideNotice | AdminNotice | SystemNotice

  /** The free-form `meta` object; the empty object `{}` has neither key. */
  datatype Meta = Meta(rideId: Option<Id>, destination: Option<string>)

  /** A stored notification. `deleteAt` carries the expire-at index. */
  datatype Notification = Notification(id: nat, user: Id, message: string, read: bool,
                                       readAt: Option<int>, kind: NotificationType,
                                       meta: Meta, deleteAt: Option<int>)

  /** `Notification.create`: `user` and `message` are required; read is
      false, readAt and deleteAt are null, type defaults to "system" and
      meta to `{}`. */
  function NewNotification(id: nat, user: Option<Id>, message: Option<string>,
                           kind: Option<NotificationType>, meta: Option<Meta>): (r: Option<Notification>)
    ensures r.Some? <==> Truthy(user) && Truthy(message)
    ensures r.Some? ==> r.value.id == id && r.value.user == user.value
                        && r.value.message == message.value
                        && !r.value.read && r.value.readAt.None? && r.value.deleteAt.None?
                        && r.value.kind == (if kind.None? then SystemNotice else kind.value)
                        && r.value.meta == (if meta.None? then Meta(None, None) else meta.value)
  {
    if !Truthy(user) || !Truthy(message) then None
    else Some(Notification(id, user.value, message.value, false, None,
                           if kind.None? then SystemNotice else kind.value,
                           if meta.None? then Meta(None, None) else meta.value, None))
  }

  /** The expire-at index (`expires: 0`) removes a document once `deleteAt` has passed. */
  predicate TtlDue(n: Notification, now: int) {
    n.deleteAt.Some? && n.deleteAt.value <= now
  }

  /** One pass of the expiry monitor. */
  function TtlSweep(items: seq<Notification>, now: int): (r: seq<Notification>)
    ensures forall i :: 0 <= i < |r| ==> !TtlDue(r[i], now) && r[i] in items
    ensures forall i :: 0 <= i < |items| && items[i].deleteAt.None? ==> items[i] in r
  {
    Filter(items, (n: Notification) => !TtlDue(n, now))
  }

  /** Ids are issued in increasing order, so they are unique. */
  predicate IdsOrdered(items: seq<Notification>, nextId: nat) {
    (forall i, j :: 0 <= i < j < |items| ==> items[i].id < items[j].id)
    && (forall i :: 0 <= i < |items| ==> items[i].id < nextId)
  }

  /** The `notifications` collection in insertion (creation) order. */
  class NotificationCollection {
    var items: seq<Notification>
    var nextId: nat

    ghost predicate Valid()
      reads this
    {
      IdsOrdered(items, nextId)
    }

    method Create(user: Option<Id>, message: Option<string>, kind: Option<NotificationType>,
                  meta: Option<Meta>) returns (r: Option<Notification>)
      requires Valid()
      modifies this
      ensures Valid()
      ensures r == NewNotification(old(nextId), user, message, kind, meta)
      ensures items == (if r.Some? then old(items) + [r.value] else old(items))
      ensures nextId == (if r.Some? then old(nextId) + 1 else old(nextId))
    {
      r := NewNotification(nextId, user, message, kind, meta);
      if r.Some? {
        items := items + [r.value];
        nextId := nextId + 1;
      }
    }

    /** An update that rewrites documents in place and keeps their ids. */
    method Rewrite(updated: seq<Notification>)
      requires Valid()
      requires |updated| == |items| && forall i :: 0 <= i < |items| ==> updated[i].id == items[i].id
      modifies this
      ensures Valid()
      ensures items == updated && nextId == old(nextId)
    {
      items := updated;
    }
  }
}
