/** Cache invalidation (utils/cacheInvalidate.js). Every function returns
    at once when the client is not open, and errors are swallowed. */
module CacheInvalidate {
  import opened Common
  import opened Redis

  const AllRidesKey: string := "rides:all"
  const SuggestionsPrefix: string := "rides:suggestions:"
  /** The page size of the cursor walk. */
  const ScanCount: nat := 100

  function RideKey(rideId: Id): string { "rides:" + rideId }
  function RideMessagesKey(rideId: Id): string { "rides:" + rideId + ":messages" }

  /** `delByPattern(prefix + "*")`: a SCAN walk from cursor "0" until the
      cursor comes back to "0", deleting each non-empty batch. */
  method DelByPattern(r: RedisStore, prefix: string)
    requires r.Valid()
    modifies r
    ensures r.Valid() && r.isOpen == old(r.isOpen) && r.order == old(r.order)
    ensures r.data == (if old(r.isOpen) then WithoutPrefix(old(r.data), prefix) else old(r.data))
  {
    if !r.isOpen {
      return;
    }
    var cursor: nat := 0;
    var started := false;
    while !started || cursor != 0
      invariant r.Valid() && r.isOpen && r.order == old(r.order)
      invariant cursor <= |r.order|
      invariant !started ==> cursor == 0 && r.data == old(r.data)
      invariant forall k :: k in r.data ==> k in old(r.data) && r.data[k] == old(r.data)[k]
      invariant forall k :: k in old(r.data) && !StartsWith(k, prefix) ==> k in r.data
      invariant started ==> forall i :: 0 <= i < (if cursor == 0 then |r.order| else cursor) ==>
                              !(r.order[i] in r.data && StartsWith(r.order[i], prefix))
      decreases if started && cursor == 0 then 0 else |r.order| - cursor + 1
    {
      var next, keys := r.Scan(cursor, prefix, ScanCount);
      if |keys| > 0 {
        r.Del(keys);
      }
      cursor := next;
      started := true;
    }
    assert forall k :: k in r.data ==> !StartsWith(k, prefix) by {
      forall k | k in r.data ensures !StartsWith(k, prefix) {
        var i :| 0 <= i < |r.order| && r.order[i] == k;
      }
    }
  }

  /** Whether `invalidateRideCache(rideId)` removes the key. */
  predicate Invalidated(key: string, rideId: Option<Id>) {
    key == AllRidesKey
    || (Truthy(rideId) && (key == RideKey(rideId.value) || key == RideMessagesKey(rideId.value)))
    || StartsWith(key, SuggestionsPrefix)
  }

  /** The key space after `invalidateRideCache` on an open client. */
  function RideCacheAfter(data: map<string, Entry>, rideId: Option<Id>): (r: map<string, Entry>)
    ensures AllRidesKey !in r
    ensures Truthy(rideId) ==> RideKey(rideId.value) !in r && RideMessagesKey(rideId.value) !in r
    ensures forall k :: k in r ==> !StartsWith(k, SuggestionsPrefix)
    ensures forall k :: k in r ==> k in data && r[k] == data[k]
    ensures forall k :: k in data && !Invalidated(k, rideId) ==> k in r
  {
    map k | k in data && !Invalidated(k, rideId) :: data[k]
  }

  /** With a falsy ride id only "rides:all" and the suggestion keys go. */
  lemma FalsyRideIdKeepsRideKeys(data: map<string, Entry>, rideId: Option<Id>, k: string)
    requires !Truthy(rideId) && k in data && k != AllRidesKey && !StartsWith(k, SuggestionsPrefix)
    ensures k in RideCacheAfter(data, rideId) && RideCacheAfter(data, rideId)[k] == data[k]
  {
  }

  /** Invalidating twice is the same as invalidating once. */
  lemma RideCacheIdempotent(data: map<string, Entry>, rideId: Option<Id>)
    ensures RideCacheAfter(RideCacheAfter(data, rideId), rideId) == RideCacheAfter(data, rideId)
  {
  }

  /** `invalidateRideCache(rideId)`. */
  method InvalidateRideCache(r: RedisStore, rideId: Option<Id>)
    requires r.Valid()
    modifies r
    ensures r.Valid() && r.isOpen == old(r.isOpen) && r.order == old(r.order)
    ensures r.data == (if old(r.isOpen) then RideCacheAfter(old(r.data), rideId) else old(r.data))
  {
    if !r.isOpen {
      return;
    }
    r.Del([AllRidesKey]);
    if Truthy(rideId) {
      r.Del([RideKey(rideId.value)]);
      r.Del([RideMessagesKey(rideId.value)]);
    }
    assert r.data == DirectDeletes(old(r.data), rideId);
    DelByPattern(r, SuggestionsPrefix);
    DeletesThenScan(old(r.data), rideId);
  }

  /** The map after the direct `del` calls, before the SCAN walk. */
  function DirectDeletes(data: map<string, Entry>, rideId: Option<Id>): map<string, Entry> {
    var noAll := DelKeys(data, [AllRidesKey]);
    if Truthy(rideId)
    then DelKeys(DelKeys(noAll, [RideKey(rideId.value)]), [RideMessagesKey(rideId.value)])
    else noAll
  }

  /** The direct deletes followed by the suggestion walk leave RideCacheAfter. */
  lemma DeletesThenScan(data: map<string, Entry>, rideId: Option<Id>)
    ensures WithoutPrefix(DirectDeletes(data, rideId), SuggestionsPrefix) == RideCacheAfter(data, rideId)
  {
    var a := WithoutPrefix(DirectDeletes(data, rideId), SuggestionsPrefix);
    var b := RideCacheAfter(data, rideId);
    assert forall k :: k in a <==> k in b;
  }

  /** `invalidateRideMessagesCache(rideId)`: only the message list key goes. */
  method InvalidateRideMessagesCache(r: RedisStore, rideId: Id)
    requires r.Valid()
    modifies r
    ensures r.Valid() && r.isOpen == old(r.isOpen) && r.order == old(r.order)
    ensures r.data == (if old(r.isOpen) then DelKeys(old(r.data), [RideMessagesKey(rideId)]) else old(r.data))
  {
    if !r.isOpen {
      return;
    }
    r.Del([RideMessagesKey(rideId)]);
  }
}
