/** The ride-expiry worker (workers/rideExpiry.worker.js): one job per ride
    expires it, clears its chat and cache, tells everyone, and notifies each
    participant. */
module RideExpiry {
  import opened Common
  import opened RideModel
  import opened MessageModel
  import opened NotificationModel
  import opened Redis
  import opened CacheInvalidate
  import opened Realtime

  const RideEndedText: string := "Ride expired automatically"

  /** The text of the notification sent to each participant. */
  function ExpiryText(destination: string): (r: string)
    ensures StartsWith(r, "Ride to ") && EndsWith(r, " expired automatically.")
    ensures |r| == |destination| + 31 && r[8..8 + |destination|] == destination
  {
    "Ride to " + destination + " expired automatically."
  }

  /** The notifications the worker creates for an expired ride, one per
      participant in list order, numbered from `firstId`. */
  function ExpiryNotices(ride: Ride, firstId: nat): (r: seq<Notification>)
    ensures |r| == |ride.participants|
    ensures ParticipantIdsValid(ride.participants) ==>
              forall i :: 0 <= i < |r| ==>
                Some(r[i]) == NewNotification(firstId + i, Some(ride.participants[i]),
                                              Some(ExpiryText(ride.destination)), Some(RideNotice),
                                              Some(Meta(Some(ride.id), Some(ride.destination))))
  {
    seq(|ride.participants|, i requires 0 <= i < |ride.participants| =>
      Notification(firstId + i, ride.participants[i], ExpiryText(ride.destination), false, None,
                   RideNotice, Meta(Some(ride.id), Some(ride.destination)), None))
  }

  /** Each new notification is pushed to its owner's personal room. */
  function NoticeEmits(notes: seq<Notification>): (r: seq<Emit>)
    ensures |r| == |notes|
    ensures forall i :: 0 <= i < |notes| ==>
              r[i] == ToRoom(notes[i].user, "notification:new", NotificationPayload(notes[i]))
  {
    seq(|notes|, i requires 0 <= i < |notes| =>
      ToRoom(notes[i].user, "notification:new", NotificationPayload(notes[i])))
  }

  /** Every participant, duplicates included, receives exactly one unread ride
      notice naming the destination, pushed to their own room. */
  lemma NoticePerParticipant(ride: Ride, firstId: nat)
    requires ParticipantIdsValid(ride.participants)
    ensures forall i :: 0 <= i < |ride.participants| ==>
              var n := ExpiryNotices(ride, firstId)[i];
              n.user == ride.participants[i] && !n.read && n.kind == RideNotice
              && n.message == ExpiryText(ride.destination) && n.meta.rideId == Some(ride.id)
              && NoticeEmits(ExpiryNotices(ride, firstId))[i].room == ride.participants[i]
    ensures forall i, j :: 0 <= i < j < |ride.participants| ==>
              ExpiryNotices(ride, firstId)[i].id < ExpiryNotices(ride, firstId)[j].id
  {
  }

  /** The room-wide and global announcements that precede the notices. */
  function EndedEmits(rideId: Id): seq<Emit> {
    [ToRoom(rideId, "ride-ended", RideEndedNotice(RideEndedText)),
     Broadcast("ride:updated", RideUpdated(rideId, "expired"))]
  }

  /** One job for `rideId`. When the ride is missing or already expired the
      job does nothing at all; otherwise every effect below happens once. */
  method RunExpiryJob(rideId: Id, rides: RideCollection, messages: MessageCollection,
                      cache: RedisStore, io: Server, notes: NotificationCollection)
    requires rides.Valid() && cache.Valid() && notes.Valid()
    modifies rides, messages, cache, io, notes
    ensures rides.Valid() && cache.Valid() && notes.Valid()
    ensures rides.docs == ExpireOne(old(rides.docs), rideId).1
    ensures ExpireOne(old(rides.docs), rideId).0.None? ==>
              messages.messages == old(messages.messages) && cache.data == old(cache.data)
              && io.log == old(io.log) && notes.items == old(notes.items)
    ensures ExpireOne(old(rides.docs), rideId).0.Some? ==>
              messages.messages == WithoutRides(old(messages.messages), {rideId})
              && cache.data == (if old(cache.isOpen) then RideCacheAfter(old(cache.data), Some(rideId))
                                else old(cache.data))
              && notes.items == old(notes.items)
                                + ExpiryNotices(ExpireOne(old(rides.docs), rideId).0.value, old(notes.nextId))
              && io.log == old(io.log) + EndedEmits(rideId)
                           + NoticeEmits(ExpiryNotices(ExpireOne(old(rides.docs), rideId).0.value,
                                                       old(notes.nextId)))
  {
    var ride := rides.FindOneAndExpire(rideId);
    if ride.None? {
      return;
    }
    var r := ride.value;
    messages.DeleteForRides({rideId});
    InvalidateRideCache(cache, Some(rideId));
    io.EmitTo(rideId, "ride-ended", RideEndedNotice(RideEndedText));
    io.EmitAll("ride:updated", RideUpdated(rideId, "expired"));

    NotifyParticipants(r, rideId, io, notes);
  }

  lemma ExtendPrefix(all: seq<Notification>, i: nat)
    requires i < |all|
    ensures all[..i + 1] == all[..i] + [all[i]]
    ensures NoticeEmits(all[..i + 1]) == NoticeEmits(all[..i]) + NoticeEmits([all[i]])
  {
    assert all[..i + 1] == all[..i] + [all[i]];
    NoticeEmitsAppend(all[..i], [all[i]]);
  }

  lemma NoticeEmitsAppend(a: seq<Notification>, b: seq<Notification>)
    ensures NoticeEmits(a + b) == NoticeEmits(a) + NoticeEmits(b)
  {
    assert forall i :: 0 <= i < |a + b| ==> NoticeEmits(a + b)[i] == (NoticeEmits(a) + NoticeEmits(b))[i];
  }

  /** The loop over the expired ride's participants: create each notice and
      push it to its owner. */
  method NotifyParticipants(r: Ride, rideId: Id, io: Server, notes: NotificationCollection)
    requires r.id == rideId && ParticipantIdsValid(r.participants) && notes.Valid()
    modifies io, notes
    ensures notes.Valid()
    ensures notes.items == old(notes.items) + ExpiryNotices(r, old(notes.nextId))
    ensures io.log == old(io.log) + NoticeEmits(ExpiryNotices(r, old(notes.nextId)))
  {
    ghost var all := ExpiryNotices(r, notes.nextId);
    ghost var firstId := notes.nextId;
    var i := 0;
    while i < |r.participants|
      invariant 0 <= i <= |r.participants|
      invariant notes.Valid() && notes.nextId == old(notes.nextId) + i
      invariant notes.items == old(notes.items) + all[..i]
      invariant io.log == old(io.log) + NoticeEmits(all[..i])
    {
      NotifyOne(r, rideId, io, notes, firstId, i);
      ExtendPrefix(all, i);
      i := i + 1;
    }
    assert all[..i] == all;
  }

  /** One iteration: create the notice for participant `i` and push it. */
  method NotifyOne(r: Ride, rideId: Id, io: Server, notes: NotificationCollection, ghost firstId: nat, i: nat)
    requires r.id == rideId && ParticipantIdsValid(r.participants) && notes.Valid()
    requires i < |r.participants| && notes.nextId == firstId + i
    modifies io, notes
    ensures notes.Valid() && notes.nextId == old(notes.nextId) + 1
    ensures notes.items == old(notes.items) + [ExpiryNotices(r, firstId)[i]]
    ensures io.log == old(io.log) + NoticeEmits([ExpiryNotices(r, firstId)[i]])
  {
    var userId := r.participants[i];
    var n := notes.Create(Some(userId), Some(ExpiryText(r.destination)), Some(RideNotice),
                          Some(Meta(Some(rideId), Some(r.destination))));
    assert n == Some(ExpiryNotices(r, firstId)[i]);
    io.EmitTo(userId, "notification:new", NotificationPayload(n.value));
  }
}

/** The expiry queue and `cancelRideExpiryJob` (utils/cancelRideExpiryJob.js):
    a ride's pending expiry job is stored under an id derived from the ride. */
module ExpiryQueue {
  import opened Common

  const JobPrefix: string := "ride-expire-"

  /** A pending job: its id and the ride it will expire. */
  datatype Job = Job(id: string, rideId: Id)

  function JobIdFor(rideId: Id): string {
    JobPrefix + rideId
  }

  /** Distinct rides never share a job id, so cancelling one ride's job
      never touches another's. */
  lemma JobIdsDistinct(a: Id, b: Id)
    ensures JobIdFor(a) == JobIdFor(b) <==> a == b
  {
    if JobIdFor(a) == JobIdFor(b) {
      assert a == JobIdFor(a)[|JobPrefix|..];
    }
  }

  /** The queue's job table, keyed by job id. */
  class JobQueue {
    var jobs: map<string, Job>

    ghost predicate Valid()
      reads this
    {
      forall id :: id in jobs ==> jobs[id].id == id
    }

    /** `queue.getJob(id)`: the job, or nothing. */
    method GetJob(id: string) returns (j: Option<Job>)
      requires Valid()
      ensures j.Some? <==> id in jobs
      ensures j.Some? ==> j.value == jobs[id] && j.value.id == id
    {
      if id in jobs {
        j := Some(jobs[id]);
      } else {
        j := None;
      }
    }

    /** `job.remove()` */
    method Remove(id: string)
      requires Valid()
      modifies this
      ensures Valid()
      ensures jobs == old(jobs) - {id}
    {
      jobs := jobs - {id};
    }
  }

  /** Look the ride's job up and remove it if it is there. */
  method CancelRideExpiryJob(q: JobQueue, rideId: Id)
    requires q.Valid()
    modifies q
    ensures q.Valid()
    ensures q.jobs == old(q.jobs) - {JobIdFor(rideId)}
  {
    var job := q.GetJob(JobIdFor(rideId));
    if job.Some? {
      q.Remove(job.value.id);
    }
  }

  /** Cancelling one ride keeps the job of every other ride. */
  lemma CancelKeepsOtherRides(jobs: map<string, Job>, rideId: Id, other: Id)
    requires other != rideId
    ensures JobIdFor(other) in jobs <==> JobIdFor(other) in jobs - {JobIdFor(rideId)}
  {
    JobIdsDistinct(other, rideId);
  }
}
