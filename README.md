# Cab-Connect in Dafny

Cab-Connect lets students share taxis. A student signs in with a one-time password sent to their college address. They create a ride to the airport or to the campus, and up to four participants share it. Each ride has a group chat. The backend expires a ride when it departs, through a per-ride expiry job and a periodic sweep. It also purges expired rides with their messages, and it invalidates the Redis cache entries about a ride. It sends in-app notifications, takes reports about fellow riders, and blocks banned users. The web client lists, searches and sorts rides, decides which buttons a ride card shows, and keeps the notification list and the session.

This project models that core as a sequential state machine over in-memory stores:

- Each Mongo collection the backend writes is a class holding a `seq` of documents in insertion order: rides, messages, users, OTP entries, notifications, reports.
- The Redis key space is a class holding a `map` from keys to entries with a TTL, plus the slot order that `SCAN` walks.
- The BullMQ job table is a class holding a `map` from job ids to jobs.
- Socket.IO emits are appended to an event log on the server object. Each socket keeps its set of rooms and its own outbox.
- Every database or cache call is one atomic step.
- Clocks, generated ids, OTP codes, bcrypt salts and JWT verification are parameters.

The handlers become functions that return the response together with the new store contents. Methods apply them to the store objects and are proved equal to those functions. Lemmas state what the source promises across calls: idempotence, "nothing else changes", bounds and round trips.

The modules follow the repository:

- Backend:
  - `RideModel`, `RideRoutes`, `RideJobs`, `RideExpiry` and `ExpiryQueue` cover the ride lifecycle.
  - `CacheInvalidate` works over `Redis`.
  - `ChatSocket` works over `Realtime` and `MessageModel`.
  - `AuthRoutes`, `OtpModel`, `OtpRedis`, `UserModel` and `BanMiddleware` cover sign-in and bans.
  - `NotificationModel` and `NotificationRoutes` cover notifications.
  - `ReportModel`, `ReportController` and `ReportCleanup` cover reports.
  - `Rules` holds the standalone business predicates.
- Client: `SearchPanel`, `Dashboard`, `RideCard`, `AdminPanel`, `DisplayName`, `NotificationContext` and `AuthContext`, over the records in `ClientModel`.
- Shared: `Common` holds the JavaScript string, truthiness and sequence helpers. `Sorting` is the stable sort that `Array.prototype.sort` guarantees.

The model follows the code in these places:

- Ride creation checks no ban, no limit on active rides and no 40-day horizon.
- The Ride schema takes any trimmed text as the destination.
- Participants are not unique.
- `deleteExpiredRides` purges every expired ride with no retention window.

## Model

| member | source | states |
|---|---|---|
| RideModel.ValidateRide | Cab-Connect-Backend/src/models/Ride.model.js:3-51 | a ride saves exactly when the creator, a non-blank source and destination and a valid departure date are given and there are at most four participants; five or more fail the pre-save hook; source and destination are stored as the trimmed input and the status defaults to open |
| RideModel.StoredTextIsTrimmedInput | Cab-Connect-Backend/src/models/Ride.model.js:11-20 | the stored source is the input with only its surrounding whitespace removed |
| RideModel.CapacityBoundary | Cab-Connect-Backend/src/models/Ride.model.js:46-50 | four participants pass the hook, five are rejected |
| RideModel.CreateResult | Cab-Connect-Backend/src/models/Ride.model.js:3-40 | a created ride has an id not yet in the collection, and appending it keeps ids unique and participant ids castable |
| RideModel.ExpireOne | Cab-Connect-Backend/src/workers/rideExpiry.worker.js:14-18 | the update matches exactly when a ride with that id is not yet expired; then only that ride's status becomes expired and the updated ride is returned; otherwise the collection is unchanged |
| RideModel.ExpireOneOnce | Cab-Connect-Backend/src/workers/rideExpiry.worker.js:14-20 | with unique ids a second update for the same ride matches nothing, so the worker's effects happen at most once |
| RideModel.ExpireOneKeepsStored | Cab-Connect-Backend/src/workers/rideExpiry.worker.js:14-18 | expiring a ride keeps the stored-ride invariants, and the returned ride's participants are valid ids |
| RideModel.ExpireOverdue | Cab-Connect-Backend/src/jobs/expireRides.job.js:7-15 | every ride departing strictly before now and not expired becomes expired; every other ride and every other field stays as it was |
| RideModel.Overdue | Cab-Connect-Backend/src/jobs/expireRides.job.js:8-11 | a ride is overdue when it departs strictly before now and is not expired |
| RideModel.ExpiredCountGrows | Cab-Connect-Backend/src/jobs/expireRides.job.js:7-19 | the number of expired rides grows by exactly the number of overdue rides |
| RideModel.FilterKeepsStored | Cab-Connect-Backend/src/jobs/deleteExpiredRides.job.js:21-23 | deleting rides keeps the stored-ride invariants |
| RideModel.ExpireOverdueKeepsStored | Cab-Connect-Backend/src/jobs/expireRides.job.js:7-15 | the sweep keeps the stored-ride invariants |
| RideModel.RideCollection.Create | Cab-Connect-Backend/src/models/Ride.model.js:3-51 | the collection grows by exactly the validated ride on success and is unchanged on failure |
| RideModel.RideCollection.FindOneAndExpire | Cab-Connect-Backend/src/workers/rideExpiry.worker.js:14-18 | the store update and the returned ride are those of ExpireOne |
| RideModel.RideCollection.UpdateManyExpire | Cab-Connect-Backend/src/jobs/expireRides.job.js:7-15 | the document-by-document loop produces ExpireOverdue, and modifiedCount is the number of overdue rides |
| RideModel.RideCollection.FindExpiredIds | Cab-Connect-Backend/src/jobs/deleteExpiredRides.job.js:7-10 | returns the ids of the expired rides in collection order |
| RideModel.RideCollection.DeleteByIds | Cab-Connect-Backend/src/jobs/deleteExpiredRides.job.js:21-23 | exactly the rides whose id is listed are removed, and deletedCount is how many |
| RideRoutes.CreateRideOutcome | Cab-Connect-Backend/src/routes/ride.routes.js:12-41 | 400 exactly when a field is missing; 400 exactly when the time parses and is not after now; a 201 ride has a fresh id, the requester as creator and sole participant, status open, a departure after now and the trimmed text |
| RideRoutes.CreatesWhenValid | Cab-Connect-Backend/src/routes/ride.routes.js:16-37 | non-blank fields, a real future date and a fresh id always give 201 |
| RideRoutes.CreateRide | Cab-Connect-Backend/src/routes/ride.routes.js:12-41 | the store changes only on 201, and then by exactly the created ride |
| RideJobs.ExpireOldRides | Cab-Connect-Backend/src/jobs/expireRides.job.js:3-20 | one sweep applies ExpireOverdue and reports the number of overdue rides |
| RideJobs.AfterExpiry | Cab-Connect-Backend/src/jobs/expireRides.job.js:7-15 | after a sweep no ride is overdue, a ride departing at or after now keeps its status, and only statuses change |
| RideJobs.SecondRunModifiesNothing | Cab-Connect-Backend/src/jobs/expireRides.job.js:7-19 | a second sweep at the same time finds nothing to modify and changes nothing |
| RideJobs.CollectedIds | Cab-Connect-Backend/src/jobs/deleteExpiredRides.job.js:7-13 | with unique ids, a ride's id is collected exactly when the ride is expired |
| RideJobs.DeleteByIdIsDeleteByStatus | Cab-Connect-Backend/src/jobs/deleteExpiredRides.job.js:7-23 | deleting by the collected ids removes exactly the expired rides |
| RideJobs.PurgePlan | Cab-Connect-Backend/src/jobs/deleteExpiredRides.job.js:7-23 | the collected ids are empty exactly when no ride is expired; deleting by those ids equals deleting by status; the ids are exactly the expired rides' ids; the number deleted is the number expired |
| RideJobs.DeleteExpiredRides | Cab-Connect-Backend/src/jobs/deleteExpiredRides.job.js:3-30 | with no expired ride nothing changes; otherwise every expired ride and every message of those rides is removed, everything else is kept, and the logged counts are the numbers removed |
| RideExpiry.ExpiryText | Cab-Connect-Backend/src/workers/rideExpiry.worker.js:39 | the text is "Ride to ", the destination, then " expired automatically." |
| RideExpiry.ExpiryNotices | Cab-Connect-Backend/src/workers/rideExpiry.worker.js:36-46 | one unread ride notification per participant, in participant order, with the expiry text and the ride id and destination as meta |
| RideExpiry.NoticePerParticipant | Cab-Connect-Backend/src/workers/rideExpiry.worker.js:36-48 | each participant, duplicates included, gets exactly one notification addressed to them, and all ids differ |
| RideExpiry.RunExpiryJob | Cab-Connect-Backend/src/workers/rideExpiry.worker.js:11-49 | a missing or expired ride leaves every store unchanged; otherwise the ride is expired, its messages are removed, its cache keys are invalidated, ride-ended and ride:updated are emitted, then one notice per participant is created and pushed |
| RideExpiry.NotifyOne | Cab-Connect-Backend/src/workers/rideExpiry.worker.js:37-47 | one iteration stores the participant's expiry notice and pushes it to their room |
| RideExpiry.NotifyParticipants | Cab-Connect-Backend/src/workers/rideExpiry.worker.js:36-48 | the loop appends exactly ExpiryNotices to the store and its pushes to the event log |
| ExpiryQueue.JobIdsDistinct | Cab-Connect-Backend/src/utils/cancelRideExpiryJob.js:4 | two rides share a job id exactly when they are the same ride |
| ExpiryQueue.JobQueue.GetJob | Cab-Connect-Backend/src/utils/cancelRideExpiryJob.js:5 | returns the job under that id, or nothing when there is none |
| ExpiryQueue.JobQueue.Remove | Cab-Connect-Backend/src/utils/cancelRideExpiryJob.js:6 | removes exactly that job |
| ExpiryQueue.CancelRideExpiryJob | Cab-Connect-Backend/src/utils/cancelRideExpiryJob.js:3-7 | afterwards no job has the ride's id, and every other job is kept |
| ExpiryQueue.CancelKeepsOtherRides | Cab-Connect-Backend/src/utils/cancelRideExpiryJob.js:3-7 | cancelling one ride keeps the job of every other ride |
| CacheInvalidate.DelByPattern | Cab-Connect-Backend/src/utils/cacheInvalidate.js:3-19 | on an open client the SCAN loop ends back at cursor 0 having removed exactly the keys with the prefix; on a closed client nothing changes |
| CacheInvalidate.RideCacheAfter | Cab-Connect-Backend/src/utils/cacheInvalidate.js:21-33 | "rides:all", the ride's two keys (for a truthy id) and every suggestion key are gone; every other key keeps its entry |
| CacheInvalidate.FalsyRideIdKeepsRideKeys | Cab-Connect-Backend/src/utils/cacheInvalidate.js:25-32 | with a falsy ride id only "rides:all" and the suggestion keys go |
| CacheInvalidate.RideCacheIdempotent | Cab-Connect-Backend/src/utils/cacheInvalidate.js:21-37 | invalidating twice is the same as invalidating once |
| CacheInvalidate.DeletesThenScan | Cab-Connect-Backend/src/utils/cacheInvalidate.js:21-33 | the direct deletes followed by the prefix walk leave exactly RideCacheAfter |
| CacheInvalidate.InvalidateRideCache | Cab-Connect-Backend/src/utils/cacheInvalidate.js:21-37 | the key space becomes RideCacheAfter on an open client and stays unchanged on a closed one |
| CacheInvalidate.InvalidateRideMessagesCache | Cab-Connect-Backend/src/utils/cacheInvalidate.js:39-46 | only "rides:<id>:messages" is removed, and only on an open client |
| Redis.RedisStore.Get | Cab-Connect-Backend/src/services/otpRedis.service.js:16 | GET returns the stored text, a counter as its decimal text, or nothing for a missing key |
| Redis.RedisStore.SetEx | Cab-Connect-Backend/src/services/otpRedis.service.js:6-9 | SETEX stores the text with the TTL, overwriting any old value; every other key is unchanged |
| Redis.RedisStore.Del | Cab-Connect-Backend/src/services/otpRedis.service.js:12 | DEL removes exactly the listed keys and keeps every other entry |
| Redis.RedisStore.Incr | Cab-Connect-Backend/src/services/otpRedis.service.js:24 | INCR counts a missing key from 0 with no expiry, keeps an existing counter's TTL, and fails on a non-counter value without changing anything |
| Redis.RedisStore.Expire | Cab-Connect-Backend/src/services/otpRedis.service.js:26 | EXPIRE reports whether the key exists and then sets only its TTL |
| Redis.RedisStore.Ttl | Cab-Connect-Backend/src/services/otpRedis.service.js:20 | TTL is -2 for a missing key and the stored TTL otherwise |
| Redis.RedisStore.Scan | Cab-Connect-Backend/src/utils/cacheInvalidate.js:8-11 | SCAN visits count slots from the cursor, returns the existing keys there that match the prefix, and returns cursor 0 once the walk is complete |
| OtpRedis.KeysDistinct | Cab-Connect-Backend/src/services/otpRedis.service.js:6-12 | the hash, cooldown and attempts keys never collide, and each key family determines its email |
| OtpRedis.Saved | Cab-Connect-Backend/src/services/otpRedis.service.js:4-13 | the hash is stored with TTL 300 and the cooldown "1" with TTL 60, the attempts counter is gone, and other keys are unchanged |
| OtpRedis.Cleared | Cab-Connect-Backend/src/services/otpRedis.service.js:31-34 | the hash and the counter are gone, the cooldown and every other key are kept |
| OtpRedis.SaveOtp | Cab-Connect-Backend/src/services/otpRedis.service.js:4-13 | the three commands leave the key space described by Saved |
| OtpRedis.GetOtpHash | Cab-Connect-Backend/src/services/otpRedis.service.js:15-17 | returns the stored hash, or nothing |
| OtpRedis.GetCooldownLeft | Cab-Connect-Backend/src/services/otpRedis.service.js:19-21 | returns the cooldown key's TTL (-2 when it is absent) |
| OtpRedis.IncrementOtpAttempts | Cab-Connect-Backend/src/services/otpRedis.service.js:23-29 | returns the previous count plus one, an absent counter counting as 0; the 300-second expiry is set only when the new count is 1 |
| OtpRedis.ClearOtp | Cab-Connect-Backend/src/services/otpRedis.service.js:31-34 | the two deletes leave the key space described by Cleared |
| OtpRedis.BumpedTimes | Cab-Connect-Backend/src/services/otpRedis.service.js:23-29 | after one or more increments the counter exists and holds a number |
| OtpRedis.AttemptsCountFromSave | Cab-Connect-Backend/src/services/otpRedis.service.js:4-29 | after saveOtp, n wrong guesses leave the counter at n with a 300-second TTL, and the hash and cooldown untouched |
| ChatSocket.Authenticate | Cab-Connect-Backend/src/sockets/chat.socket.js:7-21 | a connection is accepted exactly when a token is present and verifies, and the socket's user is the token's user |
| Realtime.Socket.constructor | Cab-Connect-Backend/src/sockets/chat.socket.js:23-25 | every connected socket starts in the room named after its user |
| Realtime.Server.EmitTo | Cab-Connect-Backend/src/workers/rideExpiry.worker.js:26 | a room emit is appended to the server log and nothing else is logged |
| Realtime.Server.EmitAll | Cab-Connect-Backend/src/workers/rideExpiry.worker.js:30 | a broadcast is appended to the server log |
| Realtime.Socket.Join | Cab-Connect-Backend/src/sockets/chat.socket.js:46 | the socket's rooms gain the room; its outbox is unchanged |
| Realtime.Socket.Leave | Cab-Connect-Backend/src/sockets/chat.socket.js:68 | the socket's rooms lose the room; its outbox is unchanged |
| Realtime.Socket.Send | Cab-Connect-Backend/src/sockets/chat.socket.js:57 | the event is appended to the socket's own outbox; its rooms are unchanged |
| ChatSocket.JoinDecision | Cab-Connect-Backend/src/sockets/chat.socket.js:27-46 | not found, expired, denied or joined, decided in that order, with joined exactly when the ride is live and lists the user |
| ChatSocket.JoinRide | Cab-Connect-Backend/src/sockets/chat.socket.js:27-48 | an id that does not cast changes nothing and emits nothing; otherwise the socket joins room rideId only on success, and every failure emits its error and joins nothing |
| ChatSocket.PermanentBanIgnoredAsWritten | Cab-Connect-Backend/src/sockets/chat.socket.js:60 | a permanently banned user without a running temporary ban passes the ban test as written |
| ChatSocket.BannedAsWritten | Cab-Connect-Backend/src/sockets/chat.socket.js:60 | the ban test as written: only a running temporary ban counts |
| ChatSocket.SendGuards | Cab-Connect-Backend/src/sockets/chat.socket.js:55-84 | given the ban test's answer, the guard chain answers "banned" exactly for a known user the test bans |
| ChatSocket.SendDecisionAsWritten | Cab-Connect-Backend/src/sockets/chat.socket.js:51-84 | as written the sender is refused as banned exactly when a known user has a running temporary ban |
| ChatSocket.SendAgreesWithoutPermanentFlag | Cab-Connect-Backend/src/sockets/chat.socket.js:60 | the written and the corrected send decisions agree exactly unless the sender is permanently banned with no running temporary ban |
| ChatSocket.SendDecision | Cab-Connect-Backend/src/sockets/chat.socket.js:51-84 | first failure wins: unknown user, banned, ride gone or expired, not a participant, blank content, over 500 characters; Sent only when content is non-blank and at most 500 long |
| ChatSocket.LengthBoundary | Cab-Connect-Backend/src/sockets/chat.socket.js:82-84 | for a participant, text of at most 500 characters is sent and longer text is rejected |
| ChatSocket.SendMessage | Cab-Connect-Backend/src/sockets/chat.socket.js:51-101 | an id that does not cast changes nothing and emits nothing; on Sent exactly one message, the trimmed content, is stored and broadcast to the ride's room; on ride-ended the socket leaves the room and nothing is stored; every other failure only emits its error |
| MessageModel.NewMessage | Cab-Connect-Backend/src/models/Message.model.js:3-24 | a message saves exactly when the ride id is present and the text is non-blank; the stored text is the trimmed input, the sender may be null, and the type defaults to user |
| MessageModel.WithoutRides | Cab-Connect-Backend/src/jobs/deleteExpiredRides.job.js:16-18 | no message of the given rides remains, and every other message is kept |
| MessageModel.MessageCollection.Create | Cab-Connect-Backend/src/sockets/chat.socket.js:86-90 | appends exactly the validated message |
| MessageModel.MessageCollection.DeleteForRides | Cab-Connect-Backend/src/workers/rideExpiry.worker.js:22 | the collection becomes WithoutRides |
| UserModel.NewUser | Cab-Connect-Backend/src/models/User.model.js:3-34 | a new user stores the email lowercased, is unverified, has role user, no ban count, no temporary ban and no permanent ban |
| UserModel.TemporarilyBanned | Cab-Connect-Backend/src/middleware/ban.middleware.js:13 | a temporary ban is in force while banUntil is set and later than now |
| UserModel.Banned | Cab-Connect-Backend/src/models/User.model.js:24-31 | a ban is in force when the stored permanent flag is set or a temporary ban is running |
| UserModel.FindUser | Cab-Connect-Backend/src/sockets/chat.socket.js:54 | returns a stored user with that id, or nothing when there is none |
| UserModel.FindUserByEmail | Cab-Connect-Backend/src/controllers/report.controller.js:32-34 | returns a stored user with that email, or nothing when there is none |
| UserModel.VerifiedUpsert | Cab-Connect-Backend/src/routes/auth.routes.js:104-108 | the returned user has the email and is verified and stored; an existing user keeps their id and other fields; with no user for the email a verified default user is appended under the new id, and the duplicate-key error arises exactly when that id is taken; other users are kept and emails stay unique |
| UserModel.UserCollection.UpsertVerified | Cab-Connect-Backend/src/routes/auth.routes.js:104-108 | the store becomes what VerifiedUpsert says |
| OtpModel.BcryptHash | Cab-Connect-Backend/src/routes/auth.routes.js:37 | a code always compares equal to its own hash |
| OtpModel.NewOtpEntry | Cab-Connect-Backend/src/models/Otp.model.js:3-24 | an entry saves exactly when the email is non-empty; the stored email is the lowercased input, with the given hash and expiry and zero attempts |
| OtpModel.FindLive | Cab-Connect-Backend/src/routes/auth.routes.js:28-31 | the first entry for the email that expires after now, or none when no such entry exists |
| OtpModel.DeleteEntry | Cab-Connect-Backend/src/routes/auth.routes.js:91 | removes exactly the entries with that id |
| OtpModel.DeleteKeepsOrder | Cab-Connect-Backend/src/routes/auth.routes.js:91 | deletion keeps ids increasing |
| OtpModel.OtpCollection.Create | Cab-Connect-Backend/src/routes/auth.routes.js:38-42 | appends exactly the new entry and advances the id counter |
| OtpModel.OtpCollection.SaveAttempts | Cab-Connect-Backend/src/routes/auth.routes.js:87-88 | only that entry's attempts change |
| OtpModel.OtpCollection.DeleteOne | Cab-Connect-Backend/src/routes/auth.routes.js:91 | the collection becomes DeleteEntry |
| AuthRoutes.NormalizeEmail | Cab-Connect-Backend/src/routes/auth.routes.js:19 | the normalised email has no uppercase letter |
| AuthRoutes.IsManipalEmail | Cab-Connect-Backend/src/routes/auth.routes.js:20-26 | true exactly when the address is a non-empty local part of [a-z0-9._%+-] followed by "@learner.manipal.edu" |
| AuthRoutes.ManipalShape | Cab-Connect-Backend/src/routes/auth.routes.js:20-22 | the suffix-and-characters check is equivalent to the local-part decomposition |
| AuthRoutes.ManipalIsCollege | Cab-Connect-Backend/src/routes/auth.routes.js:20-22 | every address the login accepts also passes isCollegeEmail |
| AuthRoutes.RequestOtpSpec | Cab-Connect-Backend/src/routes/auth.routes.js:13-58 | 400 exactly when the email is falsy; 403 exactly when the normalised email fails the pattern; 429 exactly when a live code exists, with the whole seconds left and at least 1; otherwise one entry expiring 5 minutes from now is appended; nothing changes on any failure |
| AuthRoutes.RequestOtp | Cab-Connect-Backend/src/routes/auth.routes.js:13-58 | the store is updated as RequestOtpSpec says |
| AuthRoutes.CheckCode | Cab-Connect-Backend/src/routes/auth.routes.js:84-127 | success or 500 exactly when the code matches; success deletes the entry and stores the user verified; a miss saves attempts + 1, then 401 with 3 − attempts left if below 3, else 403 and the entry is deleted |
| AuthRoutes.VerifyOtpSpec | Cab-Connect-Backend/src/routes/auth.routes.js:60-134 | 400 exactly when the email or the otp is falsy; 400 OTP_EXPIRED exactly when no live entry exists; otherwise the outcome of CheckCode on the first live entry; nothing changes on the 400s |
| AuthRoutes.VerifyOtp | Cab-Connect-Backend/src/routes/auth.routes.js:60-134 | both stores are updated as VerifyOtpSpec says |
| AuthRoutes.CheckCodeOn | Cab-Connect-Backend/src/routes/auth.routes.js:84-127 | on the first live entry, the answer and both stores are as CheckCode says |
| AuthRoutes.IssuedCodeVerifies | Cab-Connect-Backend/src/routes/auth.routes.js:36-42 | a code issued by request-otp verifies for the same address until it expires |
| AuthRoutes.LiveAfterAppend | Cab-Connect-Backend/src/routes/auth.routes.js:28-42 | when no entry was live, the appended one is the one verify-otp finds |
| AuthRoutes.NoLiveLater | Cab-Connect-Backend/src/routes/auth.routes.js:72-75 | entries that were not live at one time are not live later |
| AuthRoutes.ThreeWrongCodesLockOut | Cab-Connect-Backend/src/routes/auth.routes.js:86-101 | three wrong codes on a fresh entry give 401 with 2 left, 401 with 1 left, then 403 and the entry is gone |
| AuthRoutes.WrongCodeFollowsAttemptRule | Cab-Connect-Backend/src/routes/auth.routes.js:86-101 | on a wrong code the route answers 401 exactly when the rules' canRequestOtp allows the incremented count against 3, and 403 exactly when it does not |
| AuthRoutes.SameLiveAfterSave | Cab-Connect-Backend/src/routes/auth.routes.js:87-88 | saving an attempt count keeps the same entry first among the live ones |
| BanMiddleware.BanCheckAsWritten | Cab-Connect-Backend/src/middleware/ban.middleware.js:3-26 | as written no stored user ever gets the permanent-ban 403, and a user passes exactly when not temporarily banned |
| BanMiddleware.BanCheck | Cab-Connect-Backend/src/middleware/ban.middleware.js:3-26 | 401 exactly without a user; the temporary-ban 403 is checked first; the permanent 403 otherwise applies to flagged users; next exactly when no ban of either kind is in force |
| BanMiddleware.PermanentBanPassesAsWritten | Cab-Connect-Backend/src/middleware/ban.middleware.js:20-24 | a permanently banned user is let through as written and stopped by the corrected guard |
| BanMiddleware.AgreeWithoutPermanentFlag | Cab-Connect-Backend/src/middleware/ban.middleware.js:13-24 | both versions agree on every user without the permanent flag |
| BanMiddleware.TemporaryFirst | Cab-Connect-Backend/src/middleware/ban.middleware.js:13-17 | a running temporary ban always answers the temporary 403; a ban that ended at or before now does not block |
| NotificationModel.NewNotification | Cab-Connect-Backend/src/models/Notification.model.js:3-35 | a notification saves exactly when user and message are present; it starts unread, with no readAt and no deleteAt, and the type defaults to system |
| NotificationModel.TtlSweep | Cab-Connect-Backend/src/models/Notification.model.js:30-34 | the expire-at index removes the documents whose deleteAt has passed, and keeps every document without a deleteAt |
| NotificationModel.TtlDue | Cab-Connect-Backend/src/models/Notification.model.js:30-34 | the expire-at index is due for a notification whose deleteAt is set and not later than now |
| NotificationModel.NotificationCollection.Create | Cab-Connect-Backend/src/workers/rideExpiry.worker.js:37-45 | appends exactly the new notification and advances the id counter |
| NotificationRoutes.LatestUnread | Cab-Connect-Backend/src/routes/notification.route.js:36-45 | at most one result; empty exactly when the user has no unread notification |
| NotificationRoutes.LatestUnreadIsNewest | Cab-Connect-Backend/src/routes/notification.route.js:36-45 | a non-empty result is the user's unread notification with no later unread one after it |
| NotificationRoutes.UnreadCount | Cab-Connect-Backend/src/routes/notification.route.js:81-87 | the count of the user's unread notifications is at most the store size, and 0 exactly when the user has none |
| NotificationRoutes.PageOf | Cab-Connect-Backend/src/routes/notification.route.js:54 | the page is at least 1, and is the given page when that is at least 1 |
| NotificationRoutes.LimitAsWritten | Cab-Connect-Backend/src/routes/notification.route.js:55 | as written the limit is never above 50 and never 0, and a missing or zero limit gives 10 |
| NotificationRoutes.LimitOf | Cab-Connect-Backend/src/routes/notification.route.js:55 | the corrected limit lies in 1..50 and agrees with the written one whenever that is positive |
| NotificationRoutes.UserInbox | Cab-Connect-Backend/src/routes/notification.route.js:57-60 | exactly the user's notifications |
| NotificationRoutes.Window | Cab-Connect-Backend/src/routes/notification.route.js:61-62 | skip then limit: at most count items, which are the input from position skip on |
| NotificationRoutes.InboxAsWritten | Cab-Connect-Backend/src/routes/notification.route.js:52-79 | the page is at least 1, the limit at most 50, and total is the user's notification count |
| NotificationRoutes.Inbox | Cab-Connect-Backend/src/routes/notification.route.js:52-79 | limit in 1..50, page ≥ 1, at most limit items all owned by the user, and totalPages = ceil(total / limit) |
| NotificationRoutes.NegativeLimitPageCount | Cab-Connect-Backend/src/routes/notification.route.js:55-72 | twelve notifications with limit=-5 give five items and totalPages -2 as written |
| NotificationRoutes.PagesCoverInbox | Cab-Connect-Backend/src/routes/notification.route.js:54-72 | item m of page `page` is the user's notification at position (page - 1) * limit + m of the newest-first inbox, whenever that position exists |
| NotificationRoutes.PageWithinCount | Cab-Connect-Backend/src/routes/notification.route.js:54-72 | a page that starts inside the user's inbox is at most totalPages |
| NotificationRoutes.MarkedRead | Cab-Connect-Backend/src/routes/notification.route.js:96-106 | read is set, readAt = now, and the notification expires exactly two days later; id, owner and text are kept |
| NotificationRoutes.FindOwned | Cab-Connect-Backend/src/routes/notification.route.js:98-99 | a notification with that id and owner, or none when there is none |
| NotificationRoutes.MarkOne | Cab-Connect-Backend/src/routes/notification.route.js:93-118 | 404 exactly when no notification has that id and owner; on success only that notification changes |
| NotificationRoutes.MarkAll | Cab-Connect-Backend/src/routes/notification.route.js:120-137 | ids and owners are kept, and the length is kept |
| NotificationRoutes.MarkAllClearsUnread | Cab-Connect-Backend/src/routes/notification.route.js:120-132 | after read-all the user has no unread notification |
| NotificationRoutes.MarkAllKeepsOthers | Cab-Connect-Backend/src/routes/notification.route.js:123-132 | other users' notifications and already-read ones are unchanged; the user's unread ones become MarkedRead |
| NotificationRoutes.MarkAllOtherCount | Cab-Connect-Backend/src/routes/notification.route.js:123-132 | another user's unread count is untouched |
| NotificationRoutes.MarkOneLowersCount | Cab-Connect-Backend/src/routes/notification.route.js:98-108 | marking one unread notification read lowers its owner's unread count by exactly one |
| NotificationRoutes.MarkOneRead | Cab-Connect-Backend/src/routes/notification.route.js:93-118 | the store is updated as MarkOne says |
| NotificationRoutes.MarkAllRead | Cab-Connect-Backend/src/routes/notification.route.js:120-141 | the store becomes MarkAll, and modified is the user's former unread count |
| ReportModel.ValidateReport | Cab-Connect-Backend/src/models/Report.model.js:3-43 | a report saves exactly when every required path is present, the destination is airport or campus and the description rule holds; it stores the given reporter, reported user, ride, date and destination and the trimmed description, pending with an empty admin note |
| ReportModel.DescriptionRulesDisagree | Cab-Connect-Backend/src/models/Report.model.js:28-33 | a 31-character description passes the controller's rule and fails the schema's |
| ReportModel.AsWrittenWindow | Cab-Connect-Backend/src/models/Report.model.js:28-33 | a description that the written minimum length, the written maximum length and the corrected rule all accept has a trimmed length of exactly 30 |
| ReportModel.WindowNotEmpty | Cab-Connect-Backend/src/models/Report.model.js:28-33 | thirty letters satisfy the written minimum, the written maximum and the corrected rule, so the written window is not empty |
| ReportModel.LettersInWindow | Cab-Connect-Backend/src/models/Report.model.js:28-33 | thirty letters have raw and trimmed length 30 |
| ReportModel.AppendKeepsValid | Cab-Connect-Backend/src/models/Report.model.js:45 | appending a report with the next id and an unused key keeps ids increasing and keys unique |
| ReportModel.CreateResult | Cab-Connect-Backend/src/models/Report.model.js:45 | the duplicate-key error occurs exactly when a report with the same reporter, ride and reported user exists; a stored report keeps the key unique |
| ReportModel.ReportCollection.Create | Cab-Connect-Backend/src/models/Report.model.js:3-47 | appends exactly the validated report on success and is unchanged on failure |
| ReportModel.ReportCollection.DeleteWhere | Cab-Connect-Backend/src/jobs/deleteReports.job.js:5-8 | keeps exactly the reports the filter spares, and deleted is how many went |
| ReportController.EarlyGuards | Cab-Connect-Backend/src/controllers/report.controller.js:11-31 | missing fields, then a short description, then an unknown ride, then a requester outside the ride; the first failure decides |
| ReportController.CreateReportAsWritten | Cab-Connect-Backend/src/controllers/report.controller.js:5-80 | as written no request is ever answered 201; every request that passes the early guards gets 500 |
| ReportController.AsWrittenNeverCreates | Cab-Connect-Backend/src/controllers/report.controller.js:32-34 | a member of the ride reporting with a long enough description gets 500 |
| ReportController.LateGuards | Cab-Connect-Backend/src/controllers/report.controller.js:32-55 | the reported user is looked up by lowercased email, must be in the ride and must not be the requester, checked in that order |
| ReportController.CreateReportOutcome | Cab-Connect-Backend/src/controllers/report.controller.js:5-80 | the guards decide first, in order; past them the answer is Report.create's, and a 201 carries the next report id |
| ReportController.AfterEarlyGuards | Cab-Connect-Backend/src/controllers/report.controller.js:32-78 | past the early guards, a 201, 409 or 500 from saving is only reached once the reported user is found, in the ride and not the requester; a 201 carries the next report id |
| ReportController.SaveOutcome | Cab-Connect-Backend/src/controllers/report.controller.js:57-78 | saving answers only 201 with the next report id, 409 or 500 |
| ReportController.SaveByKey | Cab-Connect-Backend/src/controllers/report.controller.js:57-78 | a report that validates is answered 201 exactly when no stored report has its reporter, ride and reported user, and 409 exactly when one has |
| ReportController.PassingRequestIsSaved | Cab-Connect-Backend/src/controllers/report.controller.js:32-78 | a request that passes every guard on an airport or campus ride gets 201 exactly when the requester has not reported that user on that ride, and 409 exactly when they have |
| ReportController.OtherDestinationFails | Cab-Connect-Backend/src/controllers/report.controller.js:57-78 | on a ride whose destination is neither airport nor campus the report fails the schema enum, so a request past the guards gets 500 |
| ReportController.SaveReport | Cab-Connect-Backend/src/controllers/report.controller.js:57-78 | the answer is Report.create's outcome: 201 with the new id when the report validates and its key is new, 409 on the unique index, 500 on a validation error; the store grows exactly on 201, by exactly the validated report: the requester about the given user and ride, the ride's destination and departure time, the trimmed description, status pending, an empty admin note and updatedAt now |
| ReportController.CreateReport | Cab-Connect-Backend/src/controllers/report.controller.js:5-80 | the answer is CreateReportOutcome on the old store; a report is stored exactly on 201, and it is the validated report built from the looked-up ride and reported user: the requester as reporter, the ride's destination and departure time, the trimmed description, status pending; guard failures change nothing |
| ReportCleanup.DeleteReports | Cab-Connect-Backend/src/jobs/deleteReports.job.js:3-11 | removes exactly the resolved reports updated at least 24 hours ago, and logs how many |
| ReportCleanup.Survivors | Cab-Connect-Backend/src/jobs/deleteReports.job.js:4-8 | pending and reviewed reports always survive, as do resolved ones updated within the last day, and nothing else does |
| ReportCleanup.RunTwiceSameAsOnce | Cab-Connect-Backend/src/jobs/deleteReports.job.js:4-8 | a second run at the same time removes nothing |
| Rules.IsCollegeEmail | Cab-Connect-Backend/src/tests/rules.js:1-5 | true exactly for a string matching the pattern: a clean local part, "@", a clean domain, then ".edu" or ".ac.in" in any case |
| Rules.FirstAtSplits | Cab-Connect-Backend/src/tests/rules.js:4 | the pattern can only split at the first "@", and text without one never matches |
| Rules.AcceptsCollegeAddress | Cab-Connect-Backend/src/tests/rules.js:4 | any clean local part, "@", clean domain and ".edu" or ".ac.in" is accepted |
| Rules.RejectsOtherDomains | Cab-Connect-Backend/src/tests/rules.js:4 | text not ending in ".edu" or ".ac.in", in any case, is refused |
| Rules.RejectsWithoutAt | Cab-Connect-Backend/src/tests/rules.js:4 | text without an "@" is refused |
| Rules.EduAddressAccepted | Cab-Connect-Backend/src/tests/rules.js:1-5 | "abc@college.edu" is accepted |
| Rules.AcInAddressAccepted | Cab-Connect-Backend/src/tests/rules.js:1-5 | "abc@iiit.ac.in" is accepted |
| Rules.NonCollegeAddressesRefused | Cab-Connect-Backend/src/tests/rules.js:1-5 | "abc@gmail.com" is refused |
| Rules.MalformedAddressesRefused | Cab-Connect-Backend/src/tests/rules.js:1-5 | "not-an-email" and "" are refused |
| Rules.NumericOtpRange | Cab-Connect-Backend/src/tests/rules.js:7-11 | a number is valid exactly when it lies in 100000..999999 |
| Rules.OtpExamples | Cab-Connect-Backend/src/tests/rules.js:7-11 | "123456" and 654321 are valid; "12345", "abcdef" and null are not |
| Rules.NotBanned | Cab-Connect-Backend/src/tests/rules.js:18-28 | canCreateRide and canChat are false exactly when either ban flag is set |
| Rules.CanReportUser | Cab-Connect-Backend/src/tests/rules.js:53-69 | true exactly when both ids are present and distinct, both are in the ride, and no report exists yet |
| Rules.NotBannedMatchesUser | Cab-Connect-Backend/src/tests/rules.js:18-34 | a user with neither ban passes every ban rule; a temporarily banned user who is not permanently banned may join but may neither chat nor create; a permanently banned user may do none of these |
| Rules.CapacityRuleFitsSchema | Cab-Connect-Backend/src/tests/rules.js:36-38 | a join allowed by the default capacity leaves at most four participants, which the schema hook accepts |
| Rules.ExpiryBoundary | Cab-Connect-Backend/src/tests/rules.js:44-47 | at the departure instant the rule calls a ride expired while the sweep does not; one millisecond later both agree |
| Rules.CreatedRideMeetsRules | Cab-Connect-Backend/src/tests/rules.js:36-47 | a ride the create route stores has its creator auto-joined, is not expired at creation, and has room under the default capacity of four |
| Rules.NewUserPassesBanRules | Cab-Connect-Backend/src/tests/rules.js:18-51 | a newly created user has no strikes towards a permanent ban and may create, chat and join |
| Rules.PolicyExamples | Cab-Connect-Backend/src/tests/rules.js:13-69 | the expectations of the rules tests for the policy predicates |
| Rules.NullLimitIsZero | Cab-Connect-Backend/src/tests/rules.js:13-38 | an undefined maximum falls back to the default (5 attempts, 4 riders), while null compares as 0 and so refuses every non-negative count |
| Rules.IsNonEmptyString | Cab-Connect-Backend/src/utils/validate.js:1-3 | false for any non-string; for a string, true exactly when some character is not whitespace |
| SearchPanel.Pad2 | Cab-Connect-Frontend/src/utils/searchPanel.ts:9-10 | a number below 100 is written with exactly two digits |
| SearchPanel.FormatDate | Cab-Connect-Frontend/src/utils/searchPanel.ts:7-13 | two-digit day, "/", two-digit month counted from 1, "/", the year |
| SearchPanel.Pad2Value | Cab-Connect-Frontend/src/utils/searchPanel.ts:9-10 | the two digits read back as the number |
| SearchPanel.FormatDateRoundTrip | Cab-Connect-Frontend/src/utils/searchPanel.ts:7-13 | reading back a formatted date gives the day, the month counted from 1 and the year |
| SearchPanel.Search | Cab-Connect-Frontend/src/utils/searchPanel.ts:15-33 | a blank query returns the list; the call throws exactly when a ride without a creator email is reached; otherwise an order-preserving sublist holding exactly the rides whose date, lowercased destination or lowercased creator email contains the lowercased, untrimmed query |
| SearchPanel.SearchIgnoresCase | Cab-Connect-Frontend/src/utils/searchPanel.ts:18-25 | a query and its lowercase give the same result |
| SearchPanel.BlankQueryShowsAll | Cab-Connect-Frontend/src/utils/searchPanel.ts:16 | a whitespace-only query returns the list unchanged |
| DisplayName.StripDigits | Cab-Connect-Frontend/src/components/Header.tsx:16 | no digit remains, every other character is kept in order, and the length drops by exactly the number of digits |
| DisplayName.CapitalizeWords | Cab-Connect-Frontend/src/components/Header.tsx:19 | each word start becomes its uppercase form and is no lowercase letter; every other character is unchanged, and word and space positions are kept |
| DisplayName.DisplayNameClean | Cab-Connect-Frontend/src/components/Header.tsx:12-20 | the name has no digit, "." or "_" (the admin panel's copy at AdminPanel.tsx:86-94 is the same pipeline) |
| DisplayName.DisplayNameTrimmed | Cab-Connect-Frontend/src/components/Header.tsx:18 | the name has no whitespace at either end |
| DisplayName.DisplayNameCapitalized | Cab-Connect-Frontend/src/components/Header.tsx:19 | every word of the name starts with a capital letter |
| DisplayName.DisplayNameUsesLocalPart | Cab-Connect-Frontend/src/components/Header.tsx:13 | only the text before the first "mit" matters |
| DisplayName.DisplayNameIgnoresDomain | Cab-Connect-Frontend/src/components/Header.tsx:13 | whatever follows the first "mit" does not change the name |
| DisplayName.CreatorName | Cab-Connect-Frontend/src/components/RideCard.tsx:36-43 | "Unknown" for a non-string email; otherwise no digit, "." or "_", and capitalised words |
| DisplayName.CreatorNameTrimmed | Cab-Connect-Frontend/src/components/RideCard.tsx:36-43 | the card's name trimmed is the header's name |
| DisplayName.LoginName | Cab-Connect-Frontend/src/contexts/AuthContext.tsx:43 | as long as the text before the first "@"; each "." and "_" there becomes a space and every other character is kept, except that a word-initial character is uppercased; so digits are kept and words start capitalised |
| Dashboard.BeforeIsPreorder | Cab-Connect-Frontend/src/components/Dashboard.tsx:20-25 | the comparator is a total preorder, so the sort is well defined |
| Dashboard.SortedRidesBy | Cab-Connect-Frontend/src/components/Dashboard.tsx:17-26 | a permutation of the listed rides, open rides first and then ascending by date, with equal keys kept in input order |
| Dashboard.SortedRidesAsWritten | Cab-Connect-Frontend/src/components/Dashboard.tsx:17-26 | as written a ride is listed exactly when it has a date field and a status |
| Dashboard.UndatedRideNeverListed | Cab-Connect-Frontend/src/components/Dashboard.tsx:19 | a ride without a date field never appears |
| Dashboard.SortedRides | Cab-Connect-Frontend/src/components/Dashboard.tsx:17-26 | keyed on the departure time, a ride is listed exactly when it has a departure time and a status, ascending within each group |
| Dashboard.DepartingRideListed | Cab-Connect-Frontend/src/components/Dashboard.tsx:19 | every ride with a departure time and a status is listed |
| Dashboard.OpenPrefix | Cab-Connect-Frontend/src/components/Dashboard.tsx:21-22 | in the sorted list the open rides form a prefix |
| Dashboard.ActiveRides | Cab-Connect-Frontend/src/components/Dashboard.tsx:29-32 | exactly the open rides of the input that have a departure time |
| Dashboard.ExpiredRides | Cab-Connect-Frontend/src/components/Dashboard.tsx:34-37 | exactly the expired rides of the input that have a departure time |
| Dashboard.ActiveRidesShape | Cab-Connect-Frontend/src/components/Dashboard.tsx:29-32 | the active tab is the head of the sorted list, in ascending departure order |
| Dashboard.ExpiredRidesShape | Cab-Connect-Frontend/src/components/Dashboard.tsx:34-37 | the expired tab lists only expired rides of the input, in ascending departure order |
| Dashboard.MyRides | Cab-Connect-Frontend/src/components/Dashboard.tsx:39-50 | empty without a user; otherwise an order-preserving sublist holding exactly the rides the user created or joined |
| Dashboard.DisplayRides | Cab-Connect-Frontend/src/components/Dashboard.tsx:52 | "all" shows the active rides, "my" the user's rides, anything else the sorted list |
| RideCard.View | Cab-Connect-Frontend/src/components/RideCard.tsx:21-206 | nothing renders exactly for a malformed ride; Join exactly when canJoin; Chat for a participant or creator before departure; Delete for the creator before departure; Leave for a participant who is not the creator; the active title marks a participant, the badge marks the creator, and the label is "—" exactly for a destination other than airport and campus |
| RideCard.CardExpiryIsRule | Cab-Connect-Frontend/src/components/RideCard.tsx:31 | the card's expiry test is the rules' isRideExpired |
| RideCard.ButtonsExclusive | Cab-Connect-Frontend/src/components/RideCard.tsx:181-206 | Join never appears beside another button, and Delete and Leave never appear together |
| RideCard.JoinOfferedMeetsRules | Cab-Connect-Frontend/src/components/RideCard.tsx:68-73 | offering Join implies the server's capacity rule holds, the user is not on the ride, and the ride has not departed |
| RideCard.SignedOutSeesNoButtons | Cab-Connect-Frontend/src/components/RideCard.tsx:32-34 | signed out, a card offers no button and no participant or creator badge |
| AdminPanel.SortedActiveRides | Cab-Connect-Frontend/src/components/AdminPanel.tsx:56-62 | a permutation of exactly the open and full rides, latest departure first |
| AdminPanel.PanelState.constructor | Cab-Connect-Frontend/src/components/AdminPanel.tsx:64-66 | the panel opens on the active tab with an empty history |
| AdminPanel.PanelState.HandleDelete | Cab-Connect-Frontend/src/components/AdminPanel.tsx:68-71 | the ride is appended to the history whatever the deletion does |
| AdminPanel.PanelState.SelectTab | Cab-Connect-Frontend/src/components/AdminPanel.tsx:154-167 | a tab button selects its tab and keeps the deleted-ride history |
| AdminPanel.PanelState.DisplayRides | Cab-Connect-Frontend/src/components/AdminPanel.tsx:56-96 | the active tab shows exactly the open and full rides of the input, each as often as in the input, latest departure first; the history tab shows the deleted rides |
| NotificationContext.UnreadCount | Cab-Connect-Frontend/src/contexts/NotificationContext.tsx:26-29 | never more than the list length |
| NotificationContext.Prepend | Cab-Connect-Frontend/src/contexts/NotificationContext.tsx:74-76 | the new notification comes first, followed by the old list, cut to ten |
| NotificationContext.MarkReadLowersCount | Cab-Connect-Frontend/src/contexts/NotificationContext.tsx:43-55 | the unread count drops by exactly the number of unread entries with that id |
| NotificationContext.MarkReadIdempotent | Cab-Connect-Frontend/src/contexts/NotificationContext.tsx:52-54 | marking the same id twice is marking it once |
| NotificationContext.MarkAllReadClearsCount | Cab-Connect-Frontend/src/contexts/NotificationContext.tsx:57-67 | after marking all, nothing is unread |
| NotificationContext.PrependCount | Cab-Connect-Frontend/src/contexts/NotificationContext.tsx:74-76 | a push raises the unread count by at most one and never grows the list past ten |
| NotificationContext.NotificationList.constructor | Cab-Connect-Frontend/src/contexts/NotificationContext.tsx:24 | the list starts empty |
| NotificationContext.NotificationList.FetchInbox | Cab-Connect-Frontend/src/contexts/NotificationContext.tsx:31-41 | without a token (none stored, or empty) nothing changes; otherwise the list becomes the server's list, or empty |
| NotificationContext.NotificationList.OnNew | Cab-Connect-Frontend/src/contexts/NotificationContext.tsx:73-80 | the list becomes Prepend |
| NotificationContext.NotificationList.MarkAsRead | Cab-Connect-Frontend/src/contexts/NotificationContext.tsx:43-55 | without a token (none stored, or empty) nothing changes; otherwise the list becomes MarkRead |
| NotificationContext.NotificationList.MarkAllAsRead | Cab-Connect-Frontend/src/contexts/NotificationContext.tsx:57-67 | without a token (none stored, or empty) nothing changes; otherwise every entry is read and the unread count is 0 |
| AuthContext.ClientRefusesServerAddresses | Cab-Connect-Frontend/src/contexts/AuthContext.tsx:32-37 | no address the server's OTP login accepts passes the client's login check |
| AuthContext.AuthState.constructor | Cab-Connect-Frontend/src/contexts/AuthContext.tsx:19-21 | mounting starts signed out and loading |
| AuthContext.AuthState.Restore | Cab-Connect-Frontend/src/contexts/AuthContext.tsx:23-30 | a saved session is restored and loading ends |
| AuthContext.AuthState.Login | Cab-Connect-Frontend/src/contexts/AuthContext.tsx:32-50 | succeeds exactly for an address ending in "@college.edu" or "@gmail.com" (case-sensitive); on failure nothing changes; on success the user has the input email and the derived name and is saved |
| AuthContext.AuthState.Logout | Cab-Connect-Frontend/src/contexts/AuthContext.tsx:52-56 | the user and the saved copy are cleared |
| AuthContext.AdminAfterLogin | Cab-Connect-Frontend/src/contexts/AuthContext.tsx:32-58 | after login the admin flag is set exactly when the email equals the admin address ignoring case, yet the built user has no role, so the admin panel's role check (AdminPanel.tsx:44) refuses even the admin |
| AuthContext.AdminCanSignIn | Cab-Connect-Frontend/src/contexts/AuthContext.tsx:17-37 | the admin address passes the client's login check |

## Left out

- Join, leave, kick, lock, unlock, ride deletion and ride suggestions: the route handlers that implement them are not part of this model. The client calls to them (joinRide, leaveRide, deleteRide) are likewise left out.
- Concurrency: every database, cache or queue call is one atomic step, and requests, workers and sweeps never interleave.
- The race-safe join is left out for the same reason.
- Scheduling: cron.job.js, the queue setup in rideExpiry.queue.js and the BullMQ connection are left out. A job is only modelled as an entry in the job table.
- Errors raised inside the cache helpers, other than a closed client, are not modelled. The helpers catch them and carry on, so the model never has them propagate.
- Tokens: JWT signing and verification, refresh tokens, cookies, and the /refresh, /admin-login and /me routes. Token verification is a parameter of ChatSocket.Authenticate.
- Parameters instead of behaviour: code generation (generateOtp), bcrypt salts, crypto.randomUUID and Mongo ObjectId generation. bcrypt is modelled as an ideal hash, so a code matches exactly its own hash.
- utils/redisKeys.js is not part of this model. The OTP key families are stand-ins that share the property the service needs: they never collide.
- Time: dates are integer milliseconds. Date-string parsing is a parameter. Time zones, date-fns formatting and isValidDate are left out. A client date is given as day, month and year.
- RideCard's formattedDate and formattedTime are left out for the same reason.
- Floating point: JavaScript numbers are integers here. Math.ceil on a quotient is written as an exact ceiling division.
- Case mapping is ASCII only. Non-ASCII letters and Unicode whitespace beyond the listed set are not modelled.
- Mongoose runtime: the Ride pre-save hook never calls next(); only its rejection of more than four participants is modelled. Schema casting of values other than ids and dates is not modelled.
- BanMiddleware.BanCheck: the import path `../model/User.js` in ban.middleware.js points at a module that does not exist. The model assumes the user lookup works.
- Email sending, rendering, toasts and the loading screen of the header are left out.
- The fetch calls inside NotificationContext are left out. The server's answer is a parameter of FetchInbox.
- AdminPanel.PanelState.HandleDelete: the ride context does not provide deleteRideAdmin, so the call after the append throws. The model keeps only the append, which happens first.
- AdminPanel.AccessDenied reads user.role, which the client login never sets, so every signed-in user sees "Access denied". It is a plain predicate with no further contract.
- Participants on the client are modelled as ids. The null entries that RideCard's `p && p._id` guard skips are left out.
- AuthRoutes.NormalizeEmail: only "no uppercase letter" is stated. Idempotence is not proved.
- Rules.ExpiryBoundary states the disagreement at the departure instant between the rule's `<=` and the sweep's strict `$lt`, and the model keeps both as written.
- ReportController.CreateReport: past line 32 the handler also passes `report:` where the schema requires `reporter`, and `ride.date`, which ride documents do not have. The corrected handler passes the requester and the departure time, so the as-written failures of those two paths are not modelled separately.
- The stub and thin routes (admin routes, admin reports, report routes, user routes) and the cache middleware are not part of this model.
- OtpRedis and the Redis store methods require an open client. A closed node-redis client throws, and the route then answers 500; that path is not modelled.
- There is no clock in the Redis model, so no key ever expires: the 300-second code, the 60-second cooldown and the 300-second attempt counter stay until deleted.
- ReportController: a malformed rideId makes Mongoose throw a CastError that ends in the handler's 500, and a non-string reportedUserEmail makes `.toLowerCase()` throw; ReportRequest holds only strings, so non-string bodies (such as a numeric description, whose `length` is undefined) are not modelled.
- Rules.CanJoinRideCapacity takes an integer participant count and a limit that is an integer, null or undefined. Rules.CanRequestOtp takes an attempt count and a limit of those three kinds. Other JavaScript values (strings, NaN) are not modelled.
- The pure helpers (DisplayName.DotsToSpaces, RideCard.DestinationLabel, AdminPanel.StatusColor, NotificationContext.MarkRead and MarkAllRead, RideModel.IdsOf, RideExpiry.NoticeEmits) and the rules predicates are definitions; what they promise is stated by the lemmas and methods listed above.
- ChatSocket.JoinRide and ChatSocket.SendMessage: ids are abstract strings, and only the empty string stands for an id that does not cast to an ObjectId. Any other malformed id is treated as a well-formed id that finds no ride, so the model answers "Ride not found" or ride-ended where the server's CastError would leave the handler silently.
- ReportController.PassingRequestIsSaved assumes the requester's id and the reported user's id are non-empty, as the ObjectId strings from the token and the user store always are.
- Redis.RedisStore.Incr: real INCR also increments a text value holding a decimal integer; the model refuses every text value, which is the same for the OTP attempt counter because only INCR writes it.

## Findings

| source | as written | input that shows it | evidently intended | confidence | as-written member | corrected member |
|---|---|---|---|---|---|---|
| Cab-Connect-Backend/src/middleware/ban.middleware.js:20-24 | the permanent branch reads `isPermanentyBanned`, while the User schema stores `isPermanantlyBanned` | a user with the stored permanent flag and no temporary ban passes to `next()` (`PermanentBanPassesAsWritten`) | a permanently banned user gets the permanent-ban 403 | high, not executed | BanMiddleware.BanCheckAsWritten | BanMiddleware.BanCheck |
| Cab-Connect-Backend/src/sockets/chat.socket.js:60 | the chat ban test reads `isPermanentlyBanned`, a third spelling the schema lacks | the same user sends messages freely (`PermanentBanIgnoredAsWritten`; `SendAgreesWithoutPermanentFlag` shows this is the only input where the two decisions differ) | a permanently banned user is refused with "You are banned..." | high, not executed | ChatSocket.SendDecisionAsWritten | ChatSocket.SendDecision |
| Cab-Connect-Backend/src/controllers/report.controller.js:32-34 | `reportedUserEmail.toLowercase()` is not a String method; the TypeError lands in the catch-all 500 | a participant reporting anyone with a 30-character description gets 500 (`AsWrittenNeverCreates`) | the reported user is looked up by the lowercased email and the report is created (`PassingRequestIsSaved`) | high, not executed | ReportController.CreateReportAsWritten | ReportController.CreateReport |
| Cab-Connect-Backend/src/models/Report.model.js:28-33 | the controller demands a description of at least 30 characters, the schema allows at most 30 after trimming | a 31-letter description passes the controller and fails validation (`DescriptionRulesDisagree`) | one rule of at least 30 characters, checked after trimming | medium, not executed | ReportModel.AsWrittenWindow | ReportModel.ValidateReport |
| Cab-Connect-Backend/src/routes/notification.route.js:55 | `Math.min(parseInt(limit) \|\| 10, 50)` lets a negative limit through | limit=-5 with twelve notifications gives five items and totalPages -2 (`NegativeLimitPageCount`) | the limit is clamped to 1..50 and totalPages covers the inbox | high, not executed | NotificationRoutes.InboxAsWritten | NotificationRoutes.Inbox |
| Cab-Connect-Frontend/src/components/Dashboard.tsx:19 | the list keeps and sorts rides by a `date` field that ride records do not have (the Ride schema stores only `departureTime`) | a ride with a departure time and a status but no `date` never appears (`UndatedRideNeverListed`) | rides are listed and sorted by departure time | medium, not executed | Dashboard.SortedRidesAsWritten | Dashboard.SortedRides |
