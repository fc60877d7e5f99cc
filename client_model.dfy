/** The records the web client holds (the `Ride` and `User` objects it
    receives as JSON). Fields a component tests for presence are optional. */
module ClientModel {
  import opened Common

  /** A JavaScript Date as the client reads it: epoch milliseconds and the
      local calendar fields `getDate()`, `getMonth()` (0-based) and
      `getFullYear()`. */
  datatype Instant = Instant(ms: int, day: nat, monthIndex: nat, year: int)

  /** The populated creator: `_id` and `email`, whose types the card checks
      with `typeof`. */
  datatype Creator = Creator(id: JsValue, email: JsValue)

  /** A ride as the client receives it; `None` is a missing, null or empty
      field. `date` is the separate date string some views sort on, already
      parsed to milliseconds. Participants are the populated users' `_id`s. */
  datatype ClientRide = ClientRide(
    id: Option<Id>,
    destination: Option<string>,
    date: Option<int>,
    departureTime: Option<Instant>,
    status: Option<string>,
    creator: Option<Creator>,
    participants: Option<seq<Id>>)

  /** The signed-in user the client keeps; `role` is read by the admin panel. */
  datatype ClientUser = ClientUser(id: Id, email: string, name: string, role: Option<string>)

  /** `new Date(ride.departureTime).getTime()` for a present departure time. */
  function DepartureMs(r: ClientRide): int {
    if r.departureTime.Some? then r.departureTime.value.ms else 0
  }

  predicate HasStatus(r: ClientRide, status: string) {
    r.status == Some(status)
  }
}
