/** The notification endpoints (routes/notification.route.js): latest unread,
    the paginated inbox, the unread count and the two mark-read updates. */
module NotificationRoutes {
  import opened Common
  import opened NotificationModel

  predicate UnreadOf(n: Notification, user: Id) {
    n.user == user && !n.read
  }

  /** GET / : the user's newest unread notification, as a list of at most one.
      Creation order stands for `createdAt`. */
  function LatestUnread(items: seq<Notification>, user: Id): (r: seq<Notification>)
    ensures |r| <= 1
    ensures r == [] <==> forall i :: 0 <= i < |items| ==> !UnreadOf(items[i], user)
    decreases |items|
  {
    if items == [] then []
    else if UnreadOf(items[|items| - 1], user) then [items[|items| - 1]]
    else
      var front := items[..|items| - 1];
      assert forall i :: 0 <= i < |front| ==> front[i] == items[i];
      LatestUnread(front, user)
  }

  /** The notification returned is the newest of the user's unread ones. */
  lemma {:induction false} LatestUnreadIsNewest(items: seq<Notification>, user: Id)
    requires LatestUnread(items, user) != []
    ensures var r := LatestUnread(items, user);
            exists k :: 0 <= k < |items| && items[k] == r[0] && UnreadOf(items[k], user)
                        && forall j :: k < j < |items| ==> !UnreadOf(items[j], user)
    decreases |items|
  {
    var r := LatestUnread(items, user);
    var n := |items| - 1;
    if UnreadOf(items[n], user) {
      assert items[n] == r[0];
    } else {
      var front := items[..n];
      LatestUnreadIsNewest(front, user);
      var k :| 0 <= k < |front| && front[k] == r[0] && UnreadOf(front[k], user)
               && forall j :: k < j < |front| ==> !UnreadOf(front[j], user);
      forall j | k < j < |items| ensures !UnreadOf(items[j], user) {
        if j < n {
          assert items[j] == front[j];
        }
      }
      assert items[k] == front[k];
    }
  }

  /** GET /unread-count */
  function UnreadCount(items: seq<Notification>, user: Id): (r: nat)
    ensures r <= |items|
    ensures r == 0 <==> forall i :: 0 <= i < |items| ==> !UnreadOf(items[i], user)
  {
    var unread := (n: Notification) => UnreadOf(n, user);
    assert Filter(items, unread) != [] ==> Filter(items, unread)[0] in items;
    Count(items, unread)
  }

  // ---------------------------------------------------------------------
  // GET /inbox

  /** `Math.max(parseInt(page) || 1, 1)`; `raw` is None when parseInt gives NaN. */
  function PageOf(raw: Option<int>): (page: int)
    ensures page >= 1
    ensures raw.Some? && raw.value >= 1 ==> page == raw.value
    ensures raw.None? || raw.value < 1 ==> page == 1
  {
    var p := if raw.None? || raw.value == 0 then 1 else raw.value;
    if p < 1 then 1 else p
  }

  /** `Math.min(parseInt(limit) || 10, 50)` as written: a negative limit passes. */
  function LimitAsWritten(raw: Option<int>): (limit: int)
    ensures limit <= 50 && limit != 0
    ensures raw.None? || raw == Some(0) ==> limit == 10
    ensures raw.Some? && raw.value != 0 && raw.value <= 50 ==> limit == raw.value
  {
    var l := if raw.None? || raw.value == 0 then 10 else raw.value;
    if l < 50 then l else 50
  }

  /** The limit clamped to 1..50, as the page arithmetic needs. */
  function LimitOf(raw: Option<int>): (limit: int)
    ensures 1 <= limit <= 50
    ensures raw.None? || raw == Some(0) ==> limit == 10
    ensures raw.Some? && 1 <= raw.value <= 50 ==> limit == raw.value
    ensures LimitAsWritten(raw) >= 1 ==> limit == LimitAsWritten(raw)
  {
    var l := LimitAsWritten(raw);
    if l < 1 then 1 else l
  }

  /** The user's notifications, newest first. */
  function UserInbox(items: seq<Notification>, user: Id): (r: seq<Notification>)
    ensures forall i :: 0 <= i < |r| ==> r[i].user == user && r[i] in items
    ensures forall i :: 0 <= i < |items| && items[i].user == user ==> items[i] in r
  {
    var f := Filter(items, (n: Notification) => n.user == user);
    var r := Reverse(f);
    assert forall k :: 0 <= k < |f| ==> f[k] == r[|f| - 1 - k];
    r
  }

  /** `.skip(skip).limit(count)` on a list. */
  function Window(s: seq<Notification>, skip: nat, count: nat): (r: seq<Notification>)
    ensures |r| <= count
    ensures skip <= |s| ==> |r| == (if skip + count <= |s| then count else |s| - skip)
    ensures forall i :: 0 <= i < |r| ==> skip + i < |s| && r[i] == s[skip + i]
  {
    var from := if skip <= |s| then skip else |s|;
    var to := if from + count <= |s| then from + count else |s|;
    s[from..to]
  }

  datatype Pagination = Pagination(page: int, limit: int, total: nat, totalPages: int)

  /** The inbox response, or 500 when the database refuses the query. */
  datatype InboxResponse = InboxOk(notifications: seq<Notification>, pagination: Pagination)
                         | InboxServerError

  /** The handler as written. A negative `limit` reaches the query, where a
      negative limit returns |limit| documents and a negative skip fails. */
  function InboxAsWritten(items: seq<Notification>, user: Id, rawPage: Option<int>,
                          rawLimit: Option<int>): (r: InboxResponse)
    ensures r.InboxOk? ==> r.pagination.page >= 1 && r.pagination.limit <= 50
    ensures r.InboxOk? ==> r.pagination.total == |UserInbox(items, user)|
  {
    var page := PageOf(rawPage);
    var limit := LimitAsWritten(rawLimit);
    var skip := (page - 1) * limit;
    var all := UserInbox(items, user);
    if skip < 0 then InboxServerError
    else
      InboxOk(Window(all, skip, if limit > 0 then limit else -limit),
              Pagination(page, limit, |all|, CeilDiv(|all|, limit)))
  }

  /** The handler with the limit clamped to 1..50. */
  function Inbox(items: seq<Notification>, user: Id, rawPage: Option<int>,
                 rawLimit: Option<int>): (r: InboxResponse)
    ensures r.InboxOk?
    ensures 1 <= r.pagination.limit <= 50 && r.pagination.page >= 1
    ensures |r.notifications| <= r.pagination.limit
    ensures forall i :: 0 <= i < |r.notifications| ==> r.notifications[i].user == user
    ensures r.pagination.total == |UserInbox(items, user)|
    ensures r.pagination.totalPages >= 0
    ensures (r.pagination.totalPages - 1) * r.pagination.limit < r.pagination.total
            <= r.pagination.totalPages * r.pagination.limit
  {
    var page := PageOf(rawPage);
    var limit := LimitOf(rawLimit);
    var all := UserInbox(items, user);
    InboxOk(Window(all, PageSkip(page, limit), limit),
            Pagination(page, limit, |all|, CeilDiv(|all|, limit)))
  }

  /** `(page - 1) * limit`, the number of notifications before a page. */
  function PageSkip(page: int, limit: int): nat
    requires page >= 1 && limit >= 1
  {
    (page - 1) * limit
  }

  /** With twelve notifications and `limit=-5`, the handler as written
      answers with five of them and a page count of -2. */
  lemma NegativeLimitPageCount()
    ensures var items := seq(12, (i: nat) => Notification(i, "u", "m", false, None, SystemNotice,
                                                          Meta(None, None), None));
            var r := InboxAsWritten(items, "u", None, Some(-5));
            r.InboxOk? && |r.notifications| == 5 && r.pagination.totalPages == -2
  {
    var items := seq(12, (i: nat) => Notification(i, "u", "m", false, None, SystemNotice,
                                                  Meta(None, None), None));
    FilterAll(items, (n: Notification) => n.user == "u");
    assert |UserInbox(items, "u")| == 12;
  }

  /** Item m of page `page` is the notification that follows the
      PageSkip(page, limit) before it in the user's inbox: paging with
      offsets 0..limit-1 visits every one. */
  lemma PagesCoverInbox(items: seq<Notification>, user: Id, rawLimit: Option<int>, page: int, m: nat)
    requires page >= 1 && m < LimitOf(rawLimit)
    requires PageSkip(page, LimitOf(rawLimit)) + m < |UserInbox(items, user)|
    ensures var r := Inbox(items, user, Some(page), rawLimit);
            m < |r.notifications|
            && r.notifications[m] == UserInbox(items, user)[PageSkip(page, LimitOf(rawLimit)) + m]
  {
    assert PageOf(Some(page)) == page;
    WindowAt(UserInbox(items, user), PageSkip(page, LimitOf(rawLimit)), LimitOf(rawLimit), m);
  }

  /** A page that starts inside the inbox is within totalPages. */
  lemma PageWithinCount(items: seq<Notification>, user: Id, rawLimit: Option<int>, page: int)
    requires page >= 1 && PageSkip(page, LimitOf(rawLimit)) < |UserInbox(items, user)|
    ensures page <= Inbox(items, user, Some(page), rawLimit).pagination.totalPages
  {
    var r := Inbox(items, user, Some(page), rawLimit);
    PagesBound(page, LimitOf(rawLimit), |UserInbox(items, user)|, r.pagination.totalPages);
  }

  /** Position m of a window is position skip + m of the list. */
  lemma WindowAt(s: seq<Notification>, skip: nat, count: nat, m: nat)
    requires m < count && skip + m < |s|
    ensures m < |Window(s, skip, count)| && Window(s, skip, count)[m] == s[skip + m]
  {
  }

  /** A page that starts before the end lies within the page count. */
  lemma PagesBound(page: int, limit: int, total: int, pages: int)
    requires page >= 1 && limit >= 1 && PageSkip(page, limit) < total && total <= pages * limit
    ensures page <= pages
  {
  }

  // ---------------------------------------------------------------------
  // PATCH /:id/read and PATCH /read-all

  /** The `$set` of both mark-read handlers. */
  function MarkedRead(n: Notification, now: int): (r: Notification)
    ensures r.read && r.readAt == Some(now)
    ensures r.id == n.id && r.user == n.user && r.message == n.message
            && r.kind == n.kind && r.meta == n.meta
    ensures !TtlDue(r, now + TwoDays - 1) && TtlDue(r, now + TwoDays)
  {
    n.(read := true, readAt := Some(now), deleteAt := Some(now + TwoDays))
  }

  /** Index of the notification with this id owned by this user. */
  function FindOwned(items: seq<Notification>, id: nat, user: Id): (r: Option<nat>)
    ensures r.Some? ==> r.value < |items| && items[r.value].id == id && items[r.value].user == user
    ensures r.None? ==> forall i :: 0 <= i < |items| ==> !(items[i].id == id && items[i].user == user)
  {
    if items == [] then None
    else if items[0].id == id && items[0].user == user then Some(0)
    else match FindOwned(items[1..], id, user)
      case None => None
      case Some(k) => Some(k + 1)
  }

  /** The request's `:id`, or a string that is not an ObjectId. */
  datatype IdParam = NoteId(id: nat) | MalformedId

  datatype MarkOneResponse = MarkedOne(notification: Notification) | NotFound404 | MarkOneServerError

  /** `findOneAndUpdate({ _id, user }, $set, { new: true })`. */
  function MarkOne(items: seq<Notification>, id: IdParam, user: Id, now: int)
    : (r: (MarkOneResponse, seq<Notification>))
    ensures |r.1| == |items| && forall i :: 0 <= i < |items| ==> r.1[i].id == items[i].id
    ensures r.0.NotFound404? <==> id.NoteId? && forall i :: 0 <= i < |items| ==>
                                                   !(items[i].id == id.id && items[i].user == user)
    ensures !r.0.MarkedOne? ==> r.1 == items
    ensures r.0.MarkedOne? ==>
              id.NoteId? && exists k :: 0 <= k < |items| && items[k].id == id.id && items[k].user == user
                                        && r.1 == items[k := MarkedRead(items[k], now)]
                                        && r.0.notification == r.1[k]
  {
    match id
    case MalformedId => (MarkOneServerError, items)
    case NoteId(n) =>
      match FindOwned(items, n, user)
      case None => (NotFound404, items)
      case Some(k) =>
        var after := items[k := MarkedRead(items[k], now)];
        (MarkedOne(after[k]), after)
  }

  /** `updateMany({ user, read: false }, $set)`. */
  function MarkAll(items: seq<Notification>, user: Id, now: int): (r: seq<Notification>)
    ensures |r| == |items|
    ensures forall i :: 0 <= i < |items| ==> r[i].id == items[i].id && r[i].user == items[i].user
  {
    if items == [] then []
    else [if UnreadOf(items[0], user) then MarkedRead(items[0], now) else items[0]]
         + MarkAll(items[1..], user, now)
  }

  /** After read-all the user has no unread notification left. */
  lemma {:induction false} MarkAllClearsUnread(items: seq<Notification>, user: Id, now: int)
    ensures UnreadCount(MarkAll(items, user, now), user) == 0
  {
    if items != [] {
      MarkAllClearsUnread(items[1..], user, now);
      assert MarkAll(items, user, now)[1..] == MarkAll(items[1..], user, now);
    }
  }

  /** read-all leaves every other user's notifications, and the user's
      already-read ones, exactly as they were. */
  lemma {:induction false} MarkAllKeepsOthers(items: seq<Notification>, user: Id, now: int)
    ensures forall i :: 0 <= i < |items| && !UnreadOf(items[i], user) ==> MarkAll(items, user, now)[i] == items[i]
    ensures forall i :: 0 <= i < |items| && UnreadOf(items[i], user) ==>
              MarkAll(items, user, now)[i] == MarkedRead(items[i], now)
  {
    if items != [] {
      MarkAllKeepsOthers(items[1..], user, now);
      var r := MarkAll(items, user, now);
      assert r[1..] == MarkAll(items[1..], user, now);
      forall i | 1 <= i < |items| ensures r[i] == r[1..][i - 1] && items[i] == items[1..][i - 1] { }
    }
  }

  /** Another user's unread count is untouched by read-all. */
  lemma {:induction false} MarkAllOtherCount(items: seq<Notification>, user: Id, other: Id, now: int)
    requires other != user
    ensures UnreadCount(MarkAll(items, user, now), other) == UnreadCount(items, other)
  {
    if items != [] {
      MarkAllOtherCount(items[1..], user, other, now);
      assert MarkAll(items, user, now)[1..] == MarkAll(items[1..], user, now);
    }
  }

  /** Marking one unread notification read lowers the owner's count by one. */
  lemma {:induction false} MarkOneLowersCount(items: seq<Notification>, k: nat, now: int)
    requires k < |items| && !items[k].read
    ensures UnreadCount(items[k := MarkedRead(items[k], now)], items[k].user)
            == UnreadCount(items, items[k].user) - 1
  {
    var user := items[k].user;
    var after := items[k := MarkedRead(items[k], now)];
    var p := (n: Notification) => UnreadOf(n, user);
    assert items == items[..k] + [items[k]] + items[k + 1..];
    assert after == items[..k] + [MarkedRead(items[k], now)] + items[k + 1..];
    FilterAppend(items[..k] + [items[k]], items[k + 1..], p);
    FilterAppend(items[..k], [items[k]], p);
    FilterAppend(items[..k] + [MarkedRead(items[k], now)], items[k + 1..], p);
    FilterAppend(items[..k], [MarkedRead(items[k], now)], p);
  }

  /** PATCH /:id/read on the store. */
  method MarkOneRead(store: NotificationCollection, id: IdParam, user: Id, now: int)
    returns (r: MarkOneResponse)
    requires store.Valid()
    modifies store
    ensures store.Valid()
    ensures (r, store.items) == MarkOne(old(store.items), id, user, now)
    ensures store.nextId == old(store.nextId)
  {
    var res := MarkOne(store.items, id, user, now);
    store.Rewrite(res.1);
    r := res.0;
  }

  /** PATCH /read-all on the store; returns `modifiedCount`. */
  method MarkAllRead(store: NotificationCollection, user: Id, now: int) returns (modified: nat)
    requires store.Valid()
    modifies store
    ensures store.Valid()
    ensures store.items == MarkAll(old(store.items), user, now)
    ensures modified == UnreadCount(old(store.items), user)
    ensures store.nextId == old(store.nextId)
  {
    modified := UnreadCount(store.items, user);
    store.Rewrite(MarkAll(store.items, user, now));
  }
}
