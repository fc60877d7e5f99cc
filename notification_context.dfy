/** The web client's notification list (contexts/NotificationContext.tsx):
    the inbox it fetches, the unread count it derives, the pushes it
    prepends and the read marks it applies locally. */
module NotificationContext {
  import opened Common

  /** A notification as the client keeps it. */
  datatype ClientNotice = ClientNotice(id: string, message: string, read: bool, createdAt: string)

  /** The client keeps the newest ten notifications. */
  const ListLimit: nat := 10

  /** `unreadCount` */
  function UnreadCount(list: seq<ClientNotice>): (r: nat)
    ensures r <= |list|
  {
    Count(list, (n: ClientNotice) => !n.read)
  }

  /** `[notif, ...prev].slice(0, 10)` */
  function Prepend(list: seq<ClientNotice>, n: ClientNotice): (r: seq<ClientNotice>)
    ensures |r| == if |list| + 1 < ListLimit then |list| + 1 else ListLimit
    ensures r[0] == n
    ensures forall i :: 1 <= i < |r| ==> r[i] == list[i - 1]
  {
    var all := [n] + list;
    if |all| < ListLimit then all else all[..ListLimit]
  }

  /** `prev.map(n => n._id === id ? { ...n, read: true } : n)` */
  function MarkRead(list: seq<ClientNotice>, id: string): (r: seq<ClientNotice>)
    ensures |r| == |list|
    ensures forall i :: 0 <= i < |list| ==>
              r[i] == if list[i].id == id then list[i].(read := true) else list[i]
  {
    seq(|list|, i requires 0 <= i < |list| => if list[i].id == id then list[i].(read := true) else list[i])
  }

  /** `prev.map(n => ({ ...n, read: true }))` */
  function MarkAllRead(list: seq<ClientNotice>): (r: seq<ClientNotice>)
    ensures |r| == |list|
    ensures forall i :: 0 <= i < |list| ==> r[i] == list[i].(read := true)
  {
    seq(|list|, i requires 0 <= i < |list| => list[i].(read := true))
  }

  /** Marking one id read lowers the count by exactly the unread entries
      with that id. */
  lemma {:induction false} MarkReadLowersCount(list: seq<ClientNotice>, id: string)
    ensures UnreadCount(MarkRead(list, id))
            == UnreadCount(list) - Count(list, (n: ClientNotice) => n.id == id && !n.read)
  {
    if list != [] {
      MarkReadLowersCount(list[1..], id);
      assert MarkRead(list, id) == [MarkRead(list, id)[0]] + MarkRead(list[1..], id);
      FilterAppend([MarkRead(list, id)[0]], MarkRead(list[1..], id), (n: ClientNotice) => !n.read);
      assert list == [list[0]] + list[1..];
      FilterAppend([list[0]], list[1..], (n: ClientNotice) => !n.read);
      FilterAppend([list[0]], list[1..], (n: ClientNotice) => n.id == id && !n.read);
    }
  }

  /** Marking the same id twice is marking it once. */
  lemma MarkReadIdempotent(list: seq<ClientNotice>, id: string)
    ensures MarkRead(MarkRead(list, id), id) == MarkRead(list, id)
  {
  }

  /** After marking all, nothing is unread. */
  lemma MarkAllReadClearsCount(list: seq<ClientNotice>)
    ensures UnreadCount(MarkAllRead(list)) == 0
  {
    FilterNone(MarkAllRead(list), (n: ClientNotice) => !n.read);
  }

  /** A push raises the count by at most one and never grows the list
      past ten. */
  lemma {:induction false} PrependCount(list: seq<ClientNotice>, n: ClientNotice)
    ensures UnreadCount(Prepend(list, n)) <= UnreadCount(list) + 1
    ensures |Prepend(list, n)| <= ListLimit
  {
    var all := [n] + list;
    FilterAppend([n], list, (x: ClientNotice) => !x.read);
    if |all| >= ListLimit {
      assert all == all[..ListLimit] + all[ListLimit..];
      FilterAppend(all[..ListLimit], all[ListLimit..], (x: ClientNotice) => !x.read);
    }
  }

  /** The provider's list state. `token` stands for the access token in
      local storage; `if (!token) return` treats a missing and an empty
      token alike. The server requests themselves are not modelled. */
  class NotificationList {
    var notifications: seq<ClientNotice>

    constructor ()
      ensures notifications == []
    {
      notifications := [];
    }

    function Unread(): nat
      reads this
    {
      UnreadCount(notifications)
    }

    /** `fetchInbox`: the server's list, or an empty one when the response
        carries none; without a token nothing changes. */
    method FetchInbox(token: Option<string>, served: Option<seq<ClientNotice>>)
      modifies this
      ensures !Truthy(token) ==> notifications == old(notifications)
      ensures Truthy(token) ==> notifications == (if served.Some? then served.value else [])
    {
      if !Truthy(token) {
        return;
      }
      notifications := if served.Some? then served.value else [];
    }

    /** The handler for `notification:new`, `user-notification` and
        `admin-notification` pushes. */
    method OnNew(n: ClientNotice)
      modifies this
      ensures notifications == Prepend(old(notifications), n)
    {
      notifications := Prepend(notifications, n);
    }

    /** `markAsRead(id)`; without a token nothing changes. */
    method MarkAsRead(token: Option<string>, id: string)
      modifies this
      ensures !Truthy(token) ==> notifications == old(notifications)
      ensures Truthy(token) ==> notifications == MarkRead(old(notifications), id)
    {
      if !Truthy(token) {
        return;
      }
      notifications := MarkRead(notifications, id);
    }

    /** `markAllAsRead()`; without a token nothing changes. */
    method MarkAllAsRead(token: Option<string>)
      modifies this
      ensures !Truthy(token) ==> notifications == old(notifications)
      ensures Truthy(token) ==> notifications == MarkAllRead(old(notifications)) && Unread() == 0
    {
      if !Truthy(token) {
        return;
      }
      notifications := MarkAllRead(notifications);
      MarkAllReadClearsCount(old(notifications));
    }
  }
}
