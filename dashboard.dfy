/** The ride lists of the dashboard (components/Dashboard.tsx): the sorted
    list with open rides first and then by date, the active and expired
    tabs taken from it, and the user's own rides. */
module Dashboard {
  import opened Common
  import opened ClientModel
  import opened Sorting

  /** The date a list is sorted on: the ride's `date` field, as the
      dashboard reads it, or its `departureTime`. */
  datatype SortField = DateField | DepartureField

  function When(r: ClientRide, f: SortField): Option<int> {
    match f
    case DateField => r.date
    case DepartureField => if r.departureTime.Some? then Some(r.departureTime.value.ms) else None
  }

  function WhenMs(r: ClientRide, f: SortField): int {
    if When(r, f).Some? then When(r, f).value else 0
  }

  /** `r.date && r.status`: a ride without the date or the status is dropped. */
  predicate Listed(r: ClientRide, f: SortField) {
    When(r, f).Some? && Truthy(r.status)
  }

  /** 0 for open rides, 1 for all others. */
  function Group(r: ClientRide): int {
    if HasStatus(r, "open") then 0 else 1
  }

  /** The comparator: open rides before the others, then earlier dates first. */
  predicate Before(a: ClientRide, b: ClientRide, f: SortField) {
    Group(a) < Group(b) || (Group(a) == Group(b) && WhenMs(a, f) <= WhenMs(b, f))
  }

  /** The comparator as the function value handed to the sort. */
  function Cmp(f: SortField): (ClientRide, ClientRide) -> bool {
    (a: ClientRide, b: ClientRide) => Before(a, b, f)
  }

  function ListedFn(f: SortField): ClientRide -> bool {
    (x: ClientRide) => Listed(x, f)
  }

  lemma BeforeIsPreorder(f: SortField)
    ensures TotalPreorder(Cmp(f))
  {
  }

  /** `sortedRides` when sorting on field `f`. */
  function SortedRidesBy(rides: seq<ClientRide>, f: SortField): (r: seq<ClientRide>)
    ensures multiset(r) == multiset(Filter(rides, ListedFn(f)))
    ensures forall x :: x in r <==> x in rides && Listed(x, f)
    ensures forall i, j :: 0 <= i < j < |r| ==> Before(r[i], r[j], f)
    ensures forall k :: Filter(r, TieFn(Cmp(f), k)) == Filter(Filter(rides, ListedFn(f)), TieFn(Cmp(f), k))
  {
    var kept := Filter(rides, ListedFn(f));
    BeforeIsPreorder(f);
    SortSorted(kept, Cmp(f));
    var r := Sort(kept, Cmp(f));
    assert forall x :: x in r <==> x in multiset(r);
    assert forall x :: x in kept <==> x in multiset(kept);
    assert forall k :: Filter(r, TieFn(Cmp(f), k)) == Filter(kept, TieFn(Cmp(f), k)) by {
      forall k ensures Filter(r, TieFn(Cmp(f), k)) == Filter(kept, TieFn(Cmp(f), k)) {
        SortStable(kept, Cmp(f), k);
      }
    }
    r
  }

  /** The list as the dashboard builds it, keyed on the `date` field. */
  function SortedRidesAsWritten(rides: seq<ClientRide>): (r: seq<ClientRide>)
    ensures forall x :: x in r <==> x in rides && x.date.Some? && Truthy(x.status)
  {
    SortedRidesBy(rides, DateField)
  }

  /** A ride record carries no `date` field, only `departureTime`, so a
      ride as the server stores it never reaches the as-written list or
      any tab built from it. */
  lemma UndatedRideNeverListed(rides: seq<ClientRide>, x: ClientRide)
    requires x.date.None?
    ensures x !in SortedRidesAsWritten(rides)
  {
  }

  /** The list keyed on the departure time, which every ride has. */
  function SortedRides(rides: seq<ClientRide>): (r: seq<ClientRide>)
    ensures forall x :: x in r <==> x in rides && x.departureTime.Some? && Truthy(x.status)
    ensures forall i, j :: 0 <= i < j < |r| && Group(r[i]) == Group(r[j]) ==> DepartureMs(r[i]) <= DepartureMs(r[j])
  {
    SortedRidesBy(rides, DepartureField)
  }

  /** Every ride with a departure time and a status is listed. */
  lemma DepartingRideListed(rides: seq<ClientRide>, x: ClientRide)
    requires x in rides && x.departureTime.Some? && Truthy(x.status)
    ensures x in SortedRides(rides)
  {
  }

  /** `activeRides`: the open rides of the sorted list. */
  function ActiveRides(rides: seq<ClientRide>): (r: seq<ClientRide>)
    ensures forall x :: x in r <==> x in rides && x.departureTime.Some? && HasStatus(x, "open")
  {
    Filter(SortedRides(rides), (x: ClientRide) => HasStatus(x, "open"))
  }

  /** `expiredRides`: the expired rides of the sorted list. */
  function ExpiredRides(rides: seq<ClientRide>): (r: seq<ClientRide>)
    ensures forall x :: x in r <==> x in rides && x.departureTime.Some? && HasStatus(x, "expired")
  {
    Filter(SortedRides(rides), (x: ClientRide) => HasStatus(x, "expired"))
  }

  /** In a list sorted with open rides first, the open rides form a prefix. */
  lemma {:induction false} OpenPrefix(s: seq<ClientRide>, f: SortField)
    requires forall i, j :: 0 <= i < j < |s| ==> Before(s[i], s[j], f)
    ensures var open := Filter(s, (x: ClientRide) => HasStatus(x, "open"));
            |open| <= |s| && open == s[..|open|]
  {
    if s != [] {
      if HasStatus(s[0], "open") {
        OpenPrefix(s[1..], f);
      } else {
        assert forall x :: x in s[1..] ==> !HasStatus(x, "open") by {
          forall x | x in s[1..] ensures !HasStatus(x, "open") {
            var k :| 0 <= k < |s[1..]| && s[1..][k] == x;
            assert Before(s[0], s[k + 1], f);
          }
        }
        FilterNone(s[1..], (x: ClientRide) => HasStatus(x, "open"));
      }
    }
  }

  /** The active tab is the head of the sorted list, up to the first ride
      that is not open, in ascending order of departure. */
  lemma ActiveRidesShape(rides: seq<ClientRide>)
    ensures var active := ActiveRides(rides);
            |active| <= |SortedRides(rides)| && active == SortedRides(rides)[..|active|]
    ensures var active := ActiveRides(rides);
            forall i, j :: 0 <= i < j < |active| ==> DepartureMs(active[i]) <= DepartureMs(active[j])
  {
    var s := SortedRides(rides);
    OpenPrefix(s, DepartureField);
    FilterPairwise(s, (x: ClientRide) => HasStatus(x, "open"),
                   (a: ClientRide, b: ClientRide) => Before(a, b, DepartureField));
  }

  /** The expired tab lists expired rides only, in ascending order of departure. */
  lemma ExpiredRidesShape(rides: seq<ClientRide>)
    ensures var expired := ExpiredRides(rides);
            (forall i :: 0 <= i < |expired| ==> HasStatus(expired[i], "expired") && expired[i] in rides)
            && forall i, j :: 0 <= i < j < |expired| ==> DepartureMs(expired[i]) <= DepartureMs(expired[j])
  {
    var s := SortedRides(rides);
    FilterPairwise(s, (x: ClientRide) => HasStatus(x, "expired"),
                   (a: ClientRide, b: ClientRide) => Before(a, b, DepartureField));
  }

  /** The user's own ride: created by them or joined, skipping rides
      without a creator or a participants array. */
  predicate Involves(r: ClientRide, u: ClientUser) {
    r.creator.Some? && r.participants.Some?
    && (r.creator.value.id == JsString(u.id) || u.id in r.participants.value)
  }

  /** `myRides`, over the unsorted list. */
  function MyRides(rides: seq<ClientRide>, user: Option<ClientUser>): (r: seq<ClientRide>)
    ensures user.None? ==> r == []
    ensures user.Some? ==> forall i :: 0 <= i < |rides| ==> (rides[i] in r <==> Involves(rides[i], user.value))
    ensures SubsequenceOf(r, rides)
  {
    if user.None? then
      assert SubsequenceOf([], rides);
      []
    else
      FilterIsSubsequence(rides, (x: ClientRide) => Involves(x, user.value));
      Filter(rides, (x: ClientRide) => Involves(x, user.value))
  }

  /** `displayRides` for the selected tab. */
  function DisplayRides(tab: string, rides: seq<ClientRide>, user: Option<ClientUser>): (r: seq<ClientRide>)
    ensures tab == "all" ==> r == ActiveRides(rides) && forall i :: 0 <= i < |r| ==> HasStatus(r[i], "open")
    ensures tab == "my" ==> r == MyRides(rides, user)
    ensures tab != "all" && tab != "my" ==> r == SortedRides(rides)
  {
    if tab == "all" then ActiveRides(rides) else if tab == "my" then MyRides(rides, user) else SortedRides(rides)
  }
}
