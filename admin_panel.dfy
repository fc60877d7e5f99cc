/** The admin panel (components/AdminPanel.tsx): the access check, the
    active rides newest departure first, the history of rides deleted in
    this session, and the status badge colours. */
module AdminPanel {
  import opened Common
  import opened ClientModel
  import opened Sorting

  /** A missing user or one whose role is not "admin" sees "Access denied". */
  predicate AccessDenied(user: Option<ClientUser>) {
    user.None? || user.value.role != Some("admin")
  }

  predicate IsActive(r: ClientRide) {
    HasStatus(r, "open") || HasStatus(r, "full")
  }

  /** The comparator `b.departure - a.departure`: later departures first. */
  function LaterFirst(): (ClientRide, ClientRide) -> bool {
    (a: ClientRide, b: ClientRide) => DepartureMs(b) <= DepartureMs(a)
  }

  /** `sortedRides`: the open and full rides, latest departure first. */
  function SortedActiveRides(rides: seq<ClientRide>): (r: seq<ClientRide>)
    ensures multiset(r) == multiset(Filter(rides, IsActive))
    ensures forall x :: x in r <==> x in rides && IsActive(x)
    ensures forall i, j :: 0 <= i < j < |r| ==> DepartureMs(r[i]) >= DepartureMs(r[j])
  {
    var active := Filter(rides, IsActive);
    assert TotalPreorder(LaterFirst());
    SortSorted(active, LaterFirst());
    var r := Sort(active, LaterFirst());
    assert forall x :: x in r <==> x in multiset(r);
    assert forall x :: x in active <==> x in multiset(active);
    r
  }

  /** `getStatusColor`: a class list for every status, with a default. */
  function StatusColor(status: string): (r: string)
    ensures status == "open" ==> r == "bg-success/20 text-success border-success/30"
    ensures status == "full" ==> r == "bg-warning/20 text-warning border-warning/30"
    ensures status == "expired" ==> r == "bg-muted text-muted-foreground border-muted"
    ensures status != "open" && status != "full" && status != "expired" ==> r == "bg-muted text-muted-foreground"
  {
    match status
    case "open" => "bg-success/20 text-success border-success/30"
    case "full" => "bg-warning/20 text-warning border-warning/30"
    case "expired" => "bg-muted text-muted-foreground border-muted"
    case _ => "bg-muted text-muted-foreground"
  }

  datatype Tab = ActiveTab | HistoryTab

  /** The panel's state: the selected tab and the rides deleted so far. */
  class PanelState {
    var tab: Tab
    var deletedRides: seq<ClientRide>

    constructor ()
      ensures tab == ActiveTab && deletedRides == []
    {
      tab := ActiveTab;
      deletedRides := [];
    }

    /** `handleDelete`: the ride joins the history before the deletion is
        requested, so it is listed whether or not the deletion succeeds. */
    method HandleDelete(ride: ClientRide)
      modifies this
      ensures deletedRides == old(deletedRides) + [ride] && tab == old(tab)
    {
      deletedRides := deletedRides + [ride];
    }

    /** The tab buttons' `setActiveTab`: only the selected tab changes,
        and the history is kept. */
    method SelectTab(t: Tab)
      modifies this
      ensures tab == t && deletedRides == old(deletedRides)
    {
      tab := t;
    }

    /** `displayRides` */
    function DisplayRides(rides: seq<ClientRide>): (r: seq<ClientRide>)
      reads this
      ensures tab == ActiveTab ==> forall i :: 0 <= i < |r| ==> IsActive(r[i]) && r[i] in rides
      ensures tab == ActiveTab ==> multiset(r) == multiset(Filter(rides, IsActive))
                                   && (forall x :: x in rides && IsActive(x) ==> x in r)
                                   && forall i, j :: 0 <= i < j < |r| ==> DepartureMs(r[i]) >= DepartureMs(r[j])
      ensures tab == HistoryTab ==> r == deletedRides
    {
      if tab == ActiveTab then SortedActiveRides(rides) else deletedRides
    }
  }
}
