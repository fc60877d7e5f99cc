/** `createReport` (controllers/report.controller.js): the ordered guard
    chain that ends in `Report.create`. */
module ReportController {
  import opened Common
  import opened RideModel
  import opened UserModel
  import opened ReportModel

  /** The request body; absent fields are None. */
  datatype ReportRequest = ReportRequest(rideId: Option<string>, reportedUserEmail: Option<string>,
                                         description: Option<string>)

  datatype ReportResponse =
    | Created201(reportId: nat)
    | MissingFields400
    | DescriptionTooShort400
    | RideNotFound404
    | NotInRide403
    | ReportedUserNotFound404
    | ReportedUserNotInRide400
    | SelfReport400
    | AlreadyReported409
    | ServerError500

  function StatusCode(r: ReportResponse): int {
    match r
    case Created201(_) => 201
    case MissingFields400 => 400
    case DescriptionTooShort400 => 400
    case RideNotFound404 => 404
    case NotInRide403 => 403
    case ReportedUserNotFound404 => 404
    case ReportedUserNotInRide400 => 400
    case SelfReport400 => 400
    case AlreadyReported409 => 409
    case ServerError500 => 500
  }

  /** The first four guards, shared by both versions: present fields, the
      length rule (`description.length` as written, the trimmed length in the
      corrected version), the ride, and the requester's membership. */
  function EarlyGuards(rides: seq<Ride>, req: ReportRequest, requester: Id, trimFirst: bool)
    : (r: Option<ReportResponse>)
    ensures r.Some? ==> !r.value.Created201? && StatusCode(r.value) in {400, 403, 404}
    ensures r.None? ==> req.rideId.Some? && req.reportedUserEmail.Some? && req.description.Some?
                        && FindRide(rides, req.rideId.value).Some?
    ensures r.None? <==> Truthy(req.rideId) && Truthy(req.reportedUserEmail) && Truthy(req.description)
                         && JsLength(if trimFirst then Trim(req.description.value) else req.description.value)
                            >= DescriptionLength
                         && FindRide(rides, req.rideId.value).Some?
                         && requester in FindRide(rides, req.rideId.value).value.participants
  {
    if !Truthy(req.rideId) || !Truthy(req.reportedUserEmail) || !Truthy(req.description) then
      Some(MissingFields400)
    else if JsLength(if trimFirst then Trim(req.description.value) else req.description.value)
            < DescriptionLength then
      Some(DescriptionTooShort400)
    else match FindRide(rides, req.rideId.value)
      case None => Some(RideNotFound404)
      case Some(ride) => if requester !in ride.participants then Some(NotInRide403) else None
  }

  /** The handler as written: past the membership check it calls
      `reportedUserEmail.toLowercase()`, which strings do not have, and the
      TypeError lands in the catch-all 500. */
  function CreateReportAsWritten(rides: seq<Ride>, req: ReportRequest, requester: Id): (r: ReportResponse)
    ensures !r.Created201?
    ensures r == ServerError500 <==> EarlyGuards(rides, req, requester, false).None?
  {
    match EarlyGuards(rides, req, requester, false)
    case Some(failure) => failure
    case None => ServerError500
  }

  /** No request ever creates a report with the handler as written: a
      member of the ride reporting another member with a long enough
      description gets 500. */
  lemma AsWrittenNeverCreates(ride: Ride, reporter: Id, description: string)
    requires reporter in ride.participants && JsLength(description) >= DescriptionLength
    requires ride.id != ""
    ensures CreateReportAsWritten([ride], ReportRequest(Some(ride.id), Some("b@learner.manipal.edu"),
                                                         Some(description)), reporter)
            == ServerError500
  {
    var req := ReportRequest(Some(ride.id), Some("b@learner.manipal.edu"), Some(description));
    assert Truthy(req.reportedUserEmail);
    assert description != [];
    assert FindIndex([ride], ride.id) == Some(0);
    assert EarlyGuards([ride], req, reporter, false).None?;
  }

  /** The fields the corrected handler hands to `Report.create`: the
      requester as `reporter`, and the ride's departure time as `rideDate`. */
  function ReportFieldsFor(ride: Ride, reporter: Id, reported: User, description: string): ReportFields {
    ReportFields(Some(reporter), Some(reported.id), Some(ride.id), Some(IntToString(ride.departureTime)),
                 Some(ride.destination), Some(description))
  }

  /** The guards after the membership check, in order: the reported user by
      lowercased email, their membership, and not oneself. */
  function LateGuards(ride: Ride, users: seq<User>, email: string, requester: Id)
    : (r: Result<User, ReportResponse>)
    ensures r.Ok? <==> FindUserByEmail(users, ToLower(email)).Some?
                       && FindUserByEmail(users, ToLower(email)).value.id in ride.participants
                       && FindUserByEmail(users, ToLower(email)).value.id != requester
    ensures r.Ok? ==> r.value == FindUserByEmail(users, ToLower(email)).value
    ensures r.Err? ==> r.error in {ReportedUserNotFound404, ReportedUserNotInRide400, SelfReport400}
  {
    match FindUserByEmail(users, ToLower(email))
    case None => Err(ReportedUserNotFound404)
    case Some(u) =>
      if u.id !in ride.participants then Err(ReportedUserNotInRide400)
      else if u.id == requester then Err(SelfReport400)
      else Ok(u)
  }

  /** The answer to `Report.create`'s outcome: 201 with the new id, 409 on
      the unique index, 500 on a validation error. */
  function SaveAnswer(created: Result<Report, DbError>): ReportResponse {
    match created
    case Ok(rep) => Created201(rep.id)
    case Err(DuplicateKeyError) => AlreadyReported409
    case Err(ValidationError) => ServerError500
  }

  /** `Report.create` on the fields, answered: a 201 always carries the
      next report id. */
  function SaveOutcome(reports: seq<Report>, nextId: nat, f: ReportFields, now: int): (r: ReportResponse)
    ensures r.Created201? ==> r.reportId == nextId
    ensures r.Created201? || r == AlreadyReported409 || r == ServerError500
  {
    SaveAnswer(ReportModel.CreateResult(reports, nextId, f, now))
  }

  /** The corrected handler's answer on a store holding `reports` whose next
      id is `nextId`: the guards in order, then `Report.create`. */
  function CreateReportOutcome(reports: seq<Report>, nextId: nat, rides: seq<Ride>, users: seq<User>,
                               req: ReportRequest, requester: Id, now: int): (r: ReportResponse)
    ensures r.Created201? ==> r.reportId == nextId
    ensures EarlyGuards(rides, req, requester, true).Some? ==> r == EarlyGuards(rides, req, requester, true).value
    ensures r.Created201? || r == AlreadyReported409 || r == ServerError500 ==>
              EarlyGuards(rides, req, requester, true).None?
              && LateGuards(FindRide(rides, req.rideId.value).value, users, req.reportedUserEmail.value,
                            requester).Ok?
  {
    match EarlyGuards(rides, req, requester, true)
    case Some(failure) => failure
    case None =>
      AfterEarlyGuards(reports, nextId, FindRide(rides, req.rideId.value).value, users,
                       req.reportedUserEmail.value, req.description.value, requester, now)
  }

  /** The handler past the membership check: the late guards, then `Report.create`. */
  function AfterEarlyGuards(reports: seq<Report>, nextId: nat, ride: Ride, users: seq<User>, email: string,
                            description: string, requester: Id, now: int): (r: ReportResponse)
    ensures r.Created201? ==> r.reportId == nextId
    ensures r.Created201? || r == AlreadyReported409 || r == ServerError500 ==>
              LateGuards(ride, users, email, requester).Ok?
  {
    match LateGuards(ride, users, email, requester)
    case Err(e) => e
    case Ok(u) => SaveOutcome(reports, nextId, ReportFieldsFor(ride, requester, u, description), now)
  }

  /** A request that passes every guard, on a ride whose destination is in
      the report enum, with the non-empty ObjectId strings that the auth
      token and the user store provide, is answered 201 when the requester has not yet
      reported that user on that ride, and 409 when they have. */
  lemma PassingRequestIsSaved(reports: seq<Report>, nextId: nat, rides: seq<Ride>, users: seq<User>,
                              req: ReportRequest, requester: Id, now: int)
    requires EarlyGuards(rides, req, requester, true).None?
    requires var ride := FindRide(rides, req.rideId.value).value;
             LateGuards(ride, users, req.reportedUserEmail.value, requester).Ok?
             && ValidDestination(ride.destination)
    requires requester != "" && LateGuards(FindRide(rides, req.rideId.value).value, users,
                                           req.reportedUserEmail.value, requester).value.id != ""
    ensures var ride := FindRide(rides, req.rideId.value).value;
            var reported := LateGuards(ride, users, req.reportedUserEmail.value, requester).value;
            var r := CreateReportOutcome(reports, nextId, rides, users, req, requester, now);
            (r == Created201(nextId) <==>
               forall i :: 0 <= i < |reports| ==>
                 !(reports[i].reporter == requester && reports[i].ride == ride.id
                   && reports[i].reportedUser == reported.id))
            && (r == AlreadyReported409 <==>
               exists i :: 0 <= i < |reports| && reports[i].reporter == requester && reports[i].ride == ride.id
                           && reports[i].reportedUser == reported.id)
  {
    var ride := FindRide(rides, req.rideId.value).value;
    var reported := LateGuards(ride, users, req.reportedUserEmail.value, requester).value;
    var f := ReportFieldsFor(ride, requester, reported, req.description.value);
    assert OtherPathsValid(f);
    assert ValidateReport(nextId, f, now).Ok?;
    SaveByKey(reports, nextId, f, now);
  }

  /** A report that validates is answered 201 exactly when no stored report
      has its key, and 409 exactly when one has. */
  lemma SaveByKey(reports: seq<Report>, nextId: nat, f: ReportFields, now: int)
    requires ValidateReport(nextId, f, now).Ok?
    ensures var rep := ValidateReport(nextId, f, now).value;
            (SaveOutcome(reports, nextId, f, now) == Created201(nextId) <==>
               forall i :: 0 <= i < |reports| ==> !SameKey(reports[i], rep))
            && (SaveOutcome(reports, nextId, f, now) == AlreadyReported409 <==>
               exists i :: 0 <= i < |reports| && SameKey(reports[i], rep))
  {
  }

  /** A report on a ride whose destination is outside the report enum
      fails validation: every request that passes the guards gets 500. */
  lemma OtherDestinationFails(reports: seq<Report>, nextId: nat, rides: seq<Ride>, users: seq<User>,
                              req: ReportRequest, requester: Id, now: int)
    requires EarlyGuards(rides, req, requester, true).None?
    requires var ride := FindRide(rides, req.rideId.value).value;
             LateGuards(ride, users, req.reportedUserEmail.value, requester).Ok?
             && !ValidDestination(ride.destination)
    ensures CreateReportOutcome(reports, nextId, rides, users, req, requester, now) == ServerError500
  {
  }

  /** The corrected handler on the report store. */
  method CreateReport(store: ReportCollection, rides: seq<Ride>, users: seq<User>,
                      req: ReportRequest, requester: Id, now: int) returns (r: ReportResponse)
    requires store.Valid()
    modifies store
    ensures store.Valid()
    ensures r == CreateReportOutcome(old(store.reports), old(store.nextId), rides, users, req, requester, now)
    ensures EarlyGuards(rides, req, requester, true).Some? ==>
              r == EarlyGuards(rides, req, requester, true).value && store.reports == old(store.reports)
    ensures r.Created201? <==> store.reports != old(store.reports)
    ensures r.Created201? ==>
              EarlyGuards(rides, req, requester, true).None?
              && var ride := FindRide(rides, req.rideId.value).value;
                 var lg := LateGuards(ride, users, req.reportedUserEmail.value, requester);
                 lg.Ok?
                 && |store.reports| == |old(store.reports)| + 1
                 && store.reports[..|old(store.reports)|] == old(store.reports)
                 && var rep := store.reports[|old(store.reports)|];
                    rep.id == r.reportId && rep.reporter == requester && rep.reportedUser == lg.value.id
                    && rep.reportedUser != requester && rep.ride == ride.id
                    && rep.status == Pending && JsLength(rep.description) >= DescriptionLength
    ensures r.Created201? ==>
              var ride := FindRide(rides, req.rideId.value).value;
              var lg := LateGuards(ride, users, req.reportedUserEmail.value, requester);
              lg.Ok?
              && store.reports == old(store.reports)
                   + [ValidateReport(old(store.nextId),
                                     ReportFieldsFor(ride, requester, lg.value, req.description.value), now).value]
              && var rep := store.reports[|old(store.reports)|];
                 rep.destination == ride.destination && rep.rideDate == IntToString(ride.departureTime)
                 && rep.description == Trim(req.description.value) && rep.adminNote == "" && rep.updatedAt == now
    ensures EarlyGuards(rides, req, requester, true).None?
            && LateGuards(FindRide(rides, req.rideId.value).value, users, req.reportedUserEmail.value, requester).Err?
            ==> r == LateGuards(FindRide(rides, req.rideId.value).value, users, req.reportedUserEmail.value,
                                requester).error
                && store.reports == old(store.reports)
    ensures r == AlreadyReported409 ==>
              EarlyGuards(rides, req, requester, true).None?
              && var lg := LateGuards(FindRide(rides, req.rideId.value).value, users, req.reportedUserEmail.value,
                                      requester);
                 lg.Ok?
                 && exists i :: 0 <= i < |store.reports| && store.reports[i].reporter == requester
                                && store.reports[i].ride == req.rideId.value
                                && store.reports[i].reportedUser == lg.value.id
  {
    var early := EarlyGuards(rides, req, requester, true);
    if early.Some? {
      return early.value;
    }
    var ride := FindRide(rides, req.rideId.value).value;
    var late := LateGuards(ride, users, req.reportedUserEmail.value, requester);
    if late.Err? {
      return late.error;
    }
    assert late.value.id != requester && ride.id == req.rideId.value;
    r := SaveReport(store, ride, requester, late.value, req.description.value, now);
  }

  /** `Report.create` and the answer to its outcome: 201 with the new id,
      409 on the unique index, 500 on a validation error. */
  method SaveReport(store: ReportCollection, ride: Ride, requester: Id, reported: User, description: string,
                    now: int) returns (r: ReportResponse)
    requires store.Valid()
    modifies store
    ensures store.Valid()
    ensures r == SaveOutcome(old(store.reports), old(store.nextId),
                             ReportFieldsFor(ride, requester, reported, description), now)
    ensures r.Created201? || r == AlreadyReported409 || r == ServerError500
    ensures r.Created201? <==> store.reports != old(store.reports)
    ensures r.Created201? ==>
              |store.reports| == |old(store.reports)| + 1
              && store.reports[..|old(store.reports)|] == old(store.reports)
              && var rep := store.reports[|old(store.reports)|];
                 rep.id == r.reportId && rep.reporter == requester && rep.reportedUser == reported.id
                 && rep.ride == ride.id && rep.status == Pending && JsLength(rep.description) >= DescriptionLength
    ensures r.Created201? ==>
              store.reports == old(store.reports)
                + [ValidateReport(old(store.nextId), ReportFieldsFor(ride, requester, reported, description), now).value]
    ensures r.Created201? ==>
              var rep := store.reports[|old(store.reports)|];
              rep.destination == ride.destination && rep.rideDate == IntToString(ride.departureTime)
              && rep.description == Trim(description) && rep.adminNote == "" && rep.updatedAt == now
    ensures r == AlreadyReported409 ==>
              exists i :: 0 <= i < |store.reports| && store.reports[i].reporter == requester
                          && store.reports[i].ride == ride.id && store.reports[i].reportedUser == reported.id
  {
    var created := store.Create(ReportFieldsFor(ride, requester, reported, description), now);
    match created
    case Ok(rep) =>
      assert store.reports[..|old(store.reports)|] == old(store.reports);
      r := Created201(rep.id);
    case Err(DuplicateKeyError) => r := AlreadyReported409;
    case Err(ValidationError) => r := ServerError500;
  }
}
