/** `deleteReports` (jobs/deleteReports.job.js): removes resolved reports
    that have not been updated for a day. */
module ReportCleanup {
  import opened Common
  import opened ReportModel

  const OneDay: int := 24 * 60 * 60 * 1000

  predicate Resolved(r: Report) {
    r.status == ActionTaken || r.status == Dismissed
  }

  /** The `deleteMany` filter for a run at `now`. */
  predicate Purgeable(r: Report, now: int) {
    Resolved(r) && r.updatedAt <= now - OneDay
  }

  /** The job on the report store; returns the logged `deletedCount`. */
  method DeleteReports(store: ReportCollection, now: int) returns (deleted: nat)
    requires store.Valid()
    modifies store
    ensures store.Valid()
    ensures store.reports == Filter(old(store.reports), (r: Report) => !Purgeable(r, now))
    ensures deleted == |old(store.reports)| - |store.reports|
    ensures deleted == Count(old(store.reports), (r: Report) => Purgeable(r, now))
  {
    var keep := (r: Report) => !Purgeable(r, now);
    CountSplit(store.reports, (r: Report) => Purgeable(r, now), keep);
    deleted := store.DeleteWhere(keep);
  }

  /** Which reports survive a run: pending and reviewed ones always, resolved
      ones updated within the last day, and nothing else. */
  lemma Survivors(reports: seq<Report>, now: int)
    ensures var kept := Filter(reports, (r: Report) => !Purgeable(r, now));
            (forall i :: 0 <= i < |reports| && !Resolved(reports[i]) ==> reports[i] in kept)
            && (forall i :: 0 <= i < |reports| && reports[i].updatedAt > now - OneDay ==> reports[i] in kept)
            && (forall i :: 0 <= i < |kept| ==> !Resolved(kept[i]) || kept[i].updatedAt > now - OneDay)
  {
  }

  /** A second run at the same time removes nothing. */
  lemma {:induction false} RunTwiceSameAsOnce(reports: seq<Report>, now: int)
    ensures var p := (r: Report) => !Purgeable(r, now);
            Filter(Filter(reports, p), p) == Filter(reports, p)
  {
    var p := (r: Report) => !Purgeable(r, now);
    FilterAll(Filter(reports, p), p);
  }
}
