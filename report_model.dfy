/** User reports (models/Report.model.js) and their collection. */
module ReportModel {
  import opened Common

  datatype ReportStatus = Pending | Reviewed | ActionTaken | Dismissed

  /** A stored report. `updatedAt` is the schema's timestamp in milliseconds. */
  datatype Report = Report(id: nat, reporter: Id, reportedUser: Id, ride: Id, rideDate: string,
                           destination: string, description: string, status: ReportStatus,
                           adminNote: string, updatedAt: int)

  /** The paths handed to `Report.create`; any of them may be absent. */
  datatype ReportFields = ReportFields(reporter: Option<Id>, reportedUser: Option<Id>, ride: Option<Id>,
                                       rideDate: Option<string>, destination: Option<string>,
                                       description: Option<string>)

  /** The description length that the report rules are about. */
  const DescriptionLength: nat := 30

  predicate ValidDestination(d: string) {
    d == "airport" || d == "campus"
  }

  /** Every path other than the description: required, and the destination in its enum. */
  predicate OtherPathsValid(f: ReportFields) {
    Truthy(f.reporter) && Truthy(f.reportedUser) && Truthy(f.ride) && Truthy(f.rideDate)
    && f.destination.Some? && ValidDestination(f.destination.value)
  }

  /** The description rule as the schema writes it: required, trimmed, `maxLength: 30`. */
  predicate DescriptionValidAsWritten(d: Option<string>) {
    d.Some? && Trim(d.value) != "" && JsLength(Trim(d.value)) <= DescriptionLength
  }

  /** The description rule the report form and controller state: at least
      30 characters once trimmed. */
  predicate DescriptionValid(d: Option<string>) {
    d.Some? && JsLength(Trim(d.value)) >= DescriptionLength
  }

  /** `Report.create` validation with the corrected description rule; the
      description is stored trimmed, status is pending and adminNote empty. */
  function ValidateReport(id: nat, f: ReportFields, now: int): (r: Result<Report, DbError>)
    ensures r.Ok? <==> OtherPathsValid(f) && DescriptionValid(f.description)
    ensures r.Ok? ==> r.value.id == id && r.value.reporter == f.reporter.value
                      && r.value.reportedUser == f.reportedUser.value && r.value.ride == f.ride.value
                      && r.value.destination == f.destination.value && ValidDestination(r.value.destination)
                      && r.value.rideDate == f.rideDate.value && r.value.description == Trim(f.description.value)
                      && JsLength(r.value.description) >= DescriptionLength
                      && r.value.status == Pending && r.value.adminNote == ""
                      && r.value.updatedAt == now
  {
    if !OtherPathsValid(f) || !DescriptionValid(f.description) then Err(ValidationError)
    else Ok(Report(id, f.reporter.value, f.reportedUser.value, f.ride.value, f.rideDate.value,
                   f.destination.value, Trim(f.description.value), Pending, "", now))
  }

  /** A description of 31 letters meets the controller's "at least 30"
      rule and fails the schema's `maxLength: 30`. */
  lemma DescriptionRulesDisagree()
    ensures var d := seq(31, _ => 'a');
            JsLength(d) >= DescriptionLength && !DescriptionValidAsWritten(Some(d))
            && DescriptionValid(Some(d))
  {
    var d := seq(31, _ => 'a');
    assert !IsSpace(d[0]) && !IsSpace(d[30]);
    TrimShape(d);
    assert Trim(d) == d;
  }

  /** With the schema as written, a description the form's raw-length check,
      the schema's `maxLength` and the corrected trimmed-length rule all
      accept has exactly 30 characters once trimmed: the rules leave a
      window of one length. */
  lemma AsWrittenWindow(d: string)
    ensures JsLength(d) >= DescriptionLength && DescriptionValidAsWritten(Some(d)) && DescriptionValid(Some(d))
            ==> JsLength(Trim(d)) == DescriptionLength
  {
  }

  /** The window is not empty: thirty letters pass all three rules. */
  lemma WindowNotEmpty()
    ensures var d := seq(30, _ => 'a');
            JsLength(d) >= DescriptionLength && DescriptionValidAsWritten(Some(d)) && DescriptionValid(Some(d))
  {
    var d := seq(30, _ => 'a');
    assert forall i :: 0 <= i < |d| ==> d[i] == 'a';
    LettersInWindow(d);
  }

  lemma LettersInWindow(d: string)
    requires |d| == 30 && forall i :: 0 <= i < |d| ==> d[i] == 'a'
    ensures JsLength(Trim(d)) == 30 && JsLength(d) == 30
  {
    assert !IsSpace(d[0]) && !IsSpace(d[29]);
    TrimShape(d);
    assert Trim(d) == d;
  }

  /** The unique index on (reporter, ride, reportedUser). */
  predicate SameKey(a: Report, b: Report) {
    a.reporter == b.reporter && a.ride == b.ride && a.reportedUser == b.reportedUser
  }

  predicate ReportsValid(reports: seq<Report>, nextId: nat) {
    (forall i, j :: 0 <= i < j < |reports| ==> reports[i].id < reports[j].id && !SameKey(reports[i], reports[j]))
    && (forall i :: 0 <= i < |reports| ==> reports[i].id < nextId)
  }

  /** `Report.create`: validation, then the unique index. */
  function CreateResult(reports: seq<Report>, id: nat, f: ReportFields, now: int): (r: Result<Report, DbError>)
    ensures r.Ok? ==> r == ValidateReport(id, f, now)
    ensures r == Err(DuplicateKeyError) <==>
              ValidateReport(id, f, now).Ok?
              && exists i :: 0 <= i < |reports| && SameKey(reports[i], ValidateReport(id, f, now).value)
    ensures r.Ok? && ReportsValid(reports, id) ==> ReportsValid(reports + [r.value], id + 1)
  {
    match ValidateReport(id, f, now)
    case Err(e) => Err(e)
    case Ok(rep) =>
      if exists i :: 0 <= i < |reports| && SameKey(reports[i], rep) then Err(DuplicateKeyError)
      else
        AppendKeepsValid(reports, id, rep);
        Ok(rep)
  }

  /** A report with the next id and a key no stored report has keeps the
      collection's invariants. */
  lemma AppendKeepsValid(reports: seq<Report>, id: nat, rep: Report)
    requires rep.id == id && forall i :: 0 <= i < |reports| ==> !SameKey(reports[i], rep)
    ensures ReportsValid(reports, id) ==> ReportsValid(reports + [rep], id + 1)
  {
    if ReportsValid(reports, id) {
      var s := reports + [rep];
      forall i, j | 0 <= i < j < |s| ensures s[i].id < s[j].id && !SameKey(s[i], s[j]) {
        if j == |reports| {
          assert s[i] == reports[i] && s[j] == rep;
        } else {
          assert s[i] == reports[i] && s[j] == reports[j];
        }
      }
    }
  }

  /** The `reports` collection. */
  class ReportCollection {
    var reports: seq<Report>
    var nextId: nat

    ghost predicate Valid()
      reads this
    {
      ReportsValid(reports, nextId)
    }

    method Create(f: ReportFields, now: int) returns (r: Result<Report, DbError>)
      requires Valid()
      modifies this
      ensures Valid()
      ensures r == CreateResult(old(reports), old(nextId), f, now)
      ensures reports == (if r.Ok? then old(reports) + [r.value] else old(reports))
      ensures nextId == (if r.Ok? then old(nextId) + 1 else old(nextId))
    {
      r := CreateResult(reports, nextId, f, now);
      if r.Ok? {
        reports := reports + [r.value];
        nextId := nextId + 1;
      }
    }

    /** `deleteMany`: keeps the reports `keep` accepts; returns `deletedCount`. */
    method DeleteWhere(keep: Report -> bool) returns (deleted: nat)
      requires Valid()
      modifies this
      ensures Valid()
      ensures reports == Filter(old(reports), keep)
      ensures deleted == |old(reports)| - |reports|
      ensures nextId == old(nextId)
    {
      FilterPairwise(reports, keep, (a: Report, b: Report) => a.id < b.id && !SameKey(a, b));
      var kept := Filter(reports, keep);
      deleted := |reports| - |kept|;
      reports := kept;
    }
  }
}
