/** The periodic ride jobs: `expireOldRides` (jobs/expireRides.job.js) marks
    every ride whose departure has passed as expired, and
    `deleteExpiredRides` (jobs/deleteExpiredRides.job.js) removes the expired
    rides together with their chat messages. */
module RideJobs {
  import opened Common
  import opened RideModel
  import opened MessageModel

  /** One run of `expireOldRides` at `now`; returns the `modifiedCount` it logs. */
  method ExpireOldRides(rides: RideCollection, now: int) returns (modifiedCount: nat)
    requires rides.Valid()
    modifies rides
    ensures rides.Valid()
    ensures rides.docs == ExpireOverdue(old(rides.docs), now)
    ensures modifiedCount == Count(old(rides.docs), OverdueAt(now))
  {
    modifiedCount := rides.UpdateManyExpire(now);
  }

  /** After a run no ride is overdue; a ride departing exactly at `now` is
      left alone, and a run changes nothing but the status. */
  lemma AfterExpiry(docs: seq<Ride>, now: int)
    ensures forall i :: 0 <= i < |docs| ==> !Overdue(ExpireOverdue(docs, now)[i], now)
    ensures forall i :: 0 <= i < |docs| && docs[i].departureTime >= now ==>
              ExpireOverdue(docs, now)[i] == docs[i]
    ensures forall i :: 0 <= i < |docs| ==>
              ExpireOverdue(docs, now)[i] == docs[i].(status := ExpireOverdue(docs, now)[i].status)
  {
  }

  /** A second run at the same time modifies nothing. */
  lemma {:induction false} SecondRunModifiesNothing(docs: seq<Ride>, now: int)
    ensures Count(ExpireOverdue(docs, now), OverdueAt(now)) == 0
    ensures ExpireOverdue(ExpireOverdue(docs, now), now) == ExpireOverdue(docs, now)
  {
    if docs != [] {
      SecondRunModifiesNothing(docs[1..], now);
      assert ExpireOverdue(docs, now)[1..] == ExpireOverdue(docs[1..], now);
    }
  }

  /** With unique ids, a ride's id is among the collected ids exactly when
      the ride is expired. */
  lemma CollectedIds(docs: seq<Ride>)
    requires UniqueIds(docs)
    ensures forall i :: 0 <= i < |docs| ==>
              (docs[i].id in IdsOf(Filter(docs, IsExpired)) <==> IsExpired(docs[i]))
  {
    var expired := Filter(docs, IsExpired);
    var ids := IdsOf(expired);
    forall i | 0 <= i < |docs| ensures docs[i].id in ids <==> IsExpired(docs[i]) {
      if IsExpired(docs[i]) {
        var j :| 0 <= j < |expired| && expired[j] == docs[i];
        assert ids[j] == docs[i].id;
      }
      if docs[i].id in ids {
        var j :| 0 <= j < |ids| && ids[j] == docs[i].id;
        assert expired[j] in docs;
        var m :| 0 <= m < |docs| && docs[m] == expired[j];
        assert docs[m].id == docs[i].id;
        assert m == i;
      }
    }
  }

  /** Deleting by id removes exactly the documents whose status decided the id list. */
  lemma {:induction false} DeleteByIdIsDeleteByStatus(docs: seq<Ride>, ids: seq<Id>)
    requires forall i :: 0 <= i < |docs| ==> (docs[i].id in ids <==> IsExpired(docs[i]))
    ensures Filter(docs, Unlisted(ids)) == Filter(docs, NotExpired)
  {
    if docs != [] {
      DeleteByIdIsDeleteByStatus(docs[1..], ids);
    }
  }

  /** What the collected id list tells the purge: whether anything is
      expired, which rides and messages go, and how many rides. */
  lemma PurgePlan(docs: seq<Ride>)
    requires UniqueIds(docs)
    ensures var ids := IdsOf(Filter(docs, IsExpired));
            && (|ids| == 0 <==> forall i :: 0 <= i < |docs| ==> !IsExpired(docs[i]))
            && Filter(docs, Unlisted(ids)) == Filter(docs, NotExpired)
            && (set x | x in ids) == ExpiredIdSet(docs)
            && Count(docs, IsExpired) == |docs| - |Filter(docs, NotExpired)|
  {
    var expired := Filter(docs, IsExpired);
    var ids := IdsOf(expired);
    if |ids| != 0 {
      assert IsExpired(expired[0]) && expired[0] in docs;
    }
    CollectedIds(docs);
    DeleteByIdIsDeleteByStatus(docs, ids);
    CountSplit(docs, IsExpired, NotExpired);
  }

  /** One run of `deleteExpiredRides`. Returns nothing when no ride is
      expired, otherwise the deleted ride and message counts it logs. */
  method DeleteExpiredRides(rides: RideCollection, messages: MessageCollection)
    returns (counts: Option<(nat, nat)>)
    requires rides.Valid()
    modifies rides, messages
    ensures rides.Valid()
    ensures counts.None? <==> forall i :: 0 <= i < |old(rides.docs)| ==> !IsExpired(old(rides.docs)[i])
    ensures counts.None? ==> rides.docs == old(rides.docs) && messages.messages == old(messages.messages)
    ensures counts.Some? ==>
              rides.docs == Filter(old(rides.docs), NotExpired)
              && messages.messages == WithoutRides(old(messages.messages), ExpiredIdSet(old(rides.docs)))
              && counts.value.0 == Count(old(rides.docs), IsExpired)
              && counts.value.1 == |old(messages.messages)| - |messages.messages|
  {
    PurgePlan(rides.docs);
    var rideIds := rides.FindExpiredIds();
    if |rideIds| == 0 {
      return None;
    }
    var idSet := set x | x in rideIds;
    var before := |messages.messages|;
    messages.DeleteForRides(idSet);
    var ridesDeleted := rides.DeleteByIds(rideIds);
    counts := Some((ridesDeleted, before - |messages.messages|));
  }
}
