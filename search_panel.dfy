/** The ride search of the web client (utils/searchPanel.ts): a ride is
    kept when the lower-cased query occurs in its DD/MM/YYYY date, its
    lower-cased destination or its creator's lower-cased email. */
module SearchPanel {
  import opened Common
  import opened ClientModel

  /** `String(n).padStart(2, '0')` */
  function Pad2(n: nat): (r: string)
    ensures n < 100 ==> |r| == 2
    ensures forall i :: 0 <= i < |r| ==> IsDigit(r[i])
  {
    if n < 10 then "0" + NatToString(n)
    else
      assert NatToString(n) == NatToString(n / 10) + [DigitChar(n % 10)];
      NatToString(n)
  }

  /** `formatDate`: day and month padded to two digits, then the year,
      separated by "/". */
  function FormatDate(t: Instant): (r: string)
    ensures t.day < 100 && t.monthIndex < 99 ==> |r| >= 7 && r[2] == '/' && r[5] == '/'
  {
    Pad2(t.day) + "/" + Pad2(t.monthIndex + 1) + "/" + IntToString(t.year)
  }

  function DigitValue(c: char): int {
    c as int - '0' as int
  }

  /** The number a string of decimal digits spells. */
  function DecimalValue(s: string): int {
    if s == [] then 0 else 10 * DecimalValue(s[..|s| - 1]) + DigitValue(s[|s| - 1])
  }

  lemma {:induction false} NatToStringValue(n: nat)
    ensures DecimalValue(NatToString(n)) == n
  {
    if n >= 10 {
      NatToStringValue(n / 10);
      var s := NatToString(n);
      assert s[..|s| - 1] == NatToString(n / 10);
    }
  }

  lemma Pad2Value(n: nat)
    requires n < 100
    ensures DecimalValue(Pad2(n)) == n
  {
    NatToStringValue(n);
    if n < 10 {
      assert Pad2(n)[..1] == "0";
    }
  }

  /** Reads a DD/MM/YYYY text back into day, month and year. */
  function ParseDate(s: string): (r: Option<(int, int, int)>) {
    if |s| >= 7 && s[2] == '/' && s[5] == '/'
       && forall i :: 0 <= i < |s| && i != 2 && i != 5 ==> IsDigit(s[i])
    then Some((DecimalValue(s[..2]), DecimalValue(s[3..5]), DecimalValue(s[6..])))
    else None
  }

  /** The date text names the ride's calendar day: reading it back gives
      the day, the 1-based month and the year. */
  lemma FormatDateRoundTrip(t: Instant)
    requires 1 <= t.day <= 31 && t.monthIndex <= 11 && t.year >= 0
    ensures ParseDate(FormatDate(t)) == Some((t.day, t.monthIndex + 1, t.year))
  {
    var s := FormatDate(t);
    var d, m, y := Pad2(t.day), Pad2(t.monthIndex + 1), NatToString(t.year);
    assert s == d + "/" + m + "/" + y;
    assert s[..2] == d && s[3..5] == m && s[6..] == y;
    Pad2Value(t.day);
    Pad2Value(t.monthIndex + 1);
    NatToStringValue(t.year);
  }

  /** `ride.creator?.email.toLowerCase()` throws when a creator is present
      but its email is not a string. */
  predicate CreatorMatchThrows(r: ClientRide) {
    r.creator.Some? && !r.creator.value.email.JsString?
  }

  /** The filter's test for a ride and the lower-cased query `q`. */
  predicate Matches(r: ClientRide, q: string) {
    (r.departureTime.Some? && Includes(FormatDate(r.departureTime.value), q))
    || (r.destination.Some? && Includes(ToLower(r.destination.value), q))
    || (r.creator.Some? && r.creator.value.email.JsString?
        && Includes(ToLower(r.creator.value.email.s), q))
  }

  /** `searchPanel(rides, query)`, or `None` when the filter throws. */
  function Search(rides: seq<ClientRide>, query: string): (r: Option<seq<ClientRide>>)
    ensures Trim(query) == [] ==> r == Some(rides)
    ensures r.None? <==> Trim(query) != [] && exists i :: 0 <= i < |rides| && CreatorMatchThrows(rides[i])
    ensures r.Some? ==> SubsequenceOf(r.value, rides)
    ensures r.Some? && Trim(query) != [] ==>
              forall i :: 0 <= i < |rides| ==> (rides[i] in r.value <==> Matches(rides[i], ToLower(query)))
    ensures r.Some? ==> forall i :: 0 <= i < |r.value| ==> r.value[i] in rides
  {
    if Trim(query) == [] then
      SubsequenceOfSelf(rides);
      Some(rides)
    else if exists i :: 0 <= i < |rides| && CreatorMatchThrows(rides[i]) then None
    else
      FilterIsSubsequence(rides, (x: ClientRide) => Matches(x, ToLower(query)));
      Some(Filter(rides, (x: ClientRide) => Matches(x, ToLower(query))))
  }

  lemma LowerCharKeepsSpace(c: char)
    ensures IsSpace(LowerChar(c)) == IsSpace(c)
  {
    if IsUpperAscii(c) {
      assert IsLowerAscii(LowerChar(c));
    }
  }

  lemma LowerKeepsSpace(q: string)
    ensures Trim(ToLower(q)) == [] <==> Trim(q) == []
  {
    TrimEmptyIff(q);
    TrimEmptyIff(ToLower(q));
    forall i | 0 <= i < |q| ensures IsSpace(ToLower(q)[i]) == IsSpace(q[i]) {
      LowerCharKeepsSpace(q[i]);
    }
  }

  /** Matching ignores the case of the query. */
  lemma SearchIgnoresCase(rides: seq<ClientRide>, query: string)
    ensures Search(rides, ToLower(query)) == Search(rides, query)
  {
    LowerKeepsSpace(query);
    ToLowerIdempotent(query);
  }

  /** A query of blanks only shows the whole list. */
  lemma BlankQueryShowsAll(rides: seq<ClientRide>, query: string)
    requires forall i :: 0 <= i < |query| ==> IsSpace(query[i])
    ensures Search(rides, query) == Some(rides)
  {
    TrimEmptyIff(query);
  }
}
