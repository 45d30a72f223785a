# DobiTracker capture, sync and admin core in Dafny

DobiTracker is an Android client that captures the notifications posted on a
device and uploads them periodically to a backend, which records when each
device was last heard from and lets administrators manage users. This project
models the decision logic of four parts of it as pure Dafny functions and
methods, with time and network outcomes as explicit inputs:

- `NotificationListener` (`notification_listener.dfy`): building a record from
  a posted notification (app name lookup, default sender and message) and the
  first-in first-out capture queue with append, snapshot, clear and
  drop-oldest.
- `BackgroundSync` (`background_sync.dfy`): the upload with at most three
  attempts and linear backoff, driven by a script of call outcomes; one timer
  tick of the sync cycle (skip, abort, launch); and what the finished upload
  does to the live queue (clear on success, halve above 1000 records on
  failure).
- `DeviceStatusModel` (`device_status_model.dfy`): the `device_status` table
  as a map from device id to row, the heartbeat upsert, the offline mark, the
  three-valued "recently active" rule with its strict two-minute window, and
  the listing of all devices, most recently updated first.
- `AdminController` (`admin_controller.dfy`): the admin user handlers (create,
  update, delete, get, update role) over an abstract user store, with the
  status codes in the order the handlers check them, the device-status
  overlay, and the invariant that no two users share an email.
- `Wrappers` (`wrappers.dfy`): the `Option` type used for nullable values.

Network calls are a sequence of `CallOutcome`s (`Threw`, or a response that is
successful or not and has a body or not); a call beyond the end of the
sequence counts as one that threw (it timed out). Waits are returned as
millisecond amounts. The database's `NOW()` is the parameter `now`, in whole
seconds. The id the database assigns to a new user is a parameter.

The sync cycle is split the way the code runs it: `Tick` is the synchronous
part of `syncNotifications`, which only launches the upload and clears the
`isSyncing` flag on leaving its `try` block; `FinishUpload` is the launched
coroutine's continuation, applied to the queue as it is when the upload ends.
`SyncStep` composes the two for a cycle with nothing captured in between. The
flag therefore does not keep uploads apart (`UploadsMayOverlap`), and a tick
that finds the flag set returns before the `try`, leaving the flag set.

Behaviours of the code worth noting:

- The retry waits are 2000 and 4000 ms and nothing after the third failure:
  the comment at BackgroundSyncService.kt:191 says 2s, 4s, 6s, but the third
  wait never happens.
- A successful upload clears the whole live queue, not the uploaded snapshot,
  so records captured during the upload are lost
  (`CapturesDuringUploadAreDiscarded`).
- The `isSyncing` flag is cleared as soon as the upload is launched, so it
  does not keep cycles from overlapping (`UploadsMayOverlap`).

## Model

| member | source | states |
|---|---|---|
| NotificationListener.AppName | androidapp/app/src/main/java/com/dobitracker/android/NotificationListener.kt:77-88 | the seven known package identifiers map to their display names, every other identifier is returned unchanged |
| NotificationListener.Record | androidapp/app/src/main/java/com/dobitracker/android/NotificationListener.kt:42-61 | the record's app name is the looked-up name, sender is the title or "Unknown" when there is none, message is the text or "" when there is none, timestamp is the capture time |
| NotificationListener.Capture | androidapp/app/src/main/java/com/dobitracker/android/NotificationListener.kt:33-70 | a readable notification appends exactly one record at the tail and earlier records keep their order; one whose extraction throws leaves the queue unchanged |
| NotificationListener.Snapshot | androidapp/app/src/main/java/com/dobitracker/android/NotificationListener.kt:91-93 | the returned list equals the queue element by element (the queue is a value and is not changed) |
| NotificationListener.Clear | androidapp/app/src/main/java/com/dobitracker/android/NotificationListener.kt:96-98 | the queue is empty afterwards |
| NotificationListener.ClearOld | androidapp/app/src/main/java/com/dobitracker/android/BackgroundSyncService.kt:119-120 | dropping the n oldest leaves exactly the newest size-n records in order; n larger than the size leaves the queue as it is |
| NotificationListener.CaptureAllIsFifo | androidapp/app/src/main/java/com/dobitracker/android/NotificationListener.kt:19-64 | after any stream of postings the queue is the earlier queue followed by the records of exactly the readable postings, in posting order |
| BackgroundSync.BuildRequest | androidapp/app/src/main/java/com/dobitracker/android/BackgroundSyncService.kt:154-164 | the request has the device id and permission status given, and as many entries as captured records, each reading back as the record at the same position |
| BackgroundSync.UploadNotifications | androidapp/app/src/main/java/com/dobitracker/android/BackgroundSyncService.kt:142-198 | between 1 and 3 calls, each sending the same request; true exactly when one of the first three calls gets a successful status with a body, stopping right after it; every earlier call failed; false only after 3 failed calls; the waits are 2000·k ms after the k-th failure for k < 3, so a full failure waits 2000 then 4000 ms |
| BackgroundSync.Tick | androidapp/app/src/main/java/com/dobitracker/android/BackgroundSyncService.kt:69-129 | a tick that finds the flag set does nothing; otherwise it leaves the flag cleared, aborts when there is no listener or no device id, and launches an upload of the current queue exactly when both exist |
| BackgroundSync.FinishUpload | androidapp/app/src/main/java/com/dobitracker/android/BackgroundSyncService.kt:101-122 | on success the whole live queue is cleared; on failure it is kept unless it holds more than 1000 records, when its size/2 oldest are dropped |
| BackgroundSync.TrimKeepsNewestHalf | androidapp/app/src/main/java/com/dobitracker/android/BackgroundSyncService.kt:116-121 | a failed upload with N > 1000 queued records leaves exactly the newest N - N/2 of them, in order, more than 500 |
| BackgroundSync.SyncStep | androidapp/app/src/main/java/com/dobitracker/android/BackgroundSyncService.kt:69-129 | a full cycle: skipped when the flag is set, otherwise ends with the flag cleared; no listener or no device id leaves the queue untouched; a launched upload clears the queue on success and keeps or halves it on failure |
| BackgroundSync.UploadsMayOverlap | androidapp/app/src/main/java/com/dobitracker/android/BackgroundSyncService.kt:100-128 | after a tick launches an upload, the next tick launches another with the same request: the flag does not prevent two uploads in flight |
| BackgroundSync.CapturesDuringUploadAreDiscarded | androidapp/app/src/main/java/com/dobitracker/android/BackgroundSyncService.kt:88-104 | the request carries exactly the records queued at the tick, in order; the live queue at finish is those records followed by the records of the postings captured meanwhile, and a successful upload empties all of it, so the later records are dropped unsent |
| DeviceStatusModel.UpdateDeviceHeartbeat | backend/src/models/deviceStatusModel.js:24-34 | afterwards `d` has exactly one row, online with heartbeat, sync time and update time all `now`; created at `now` if inserted, else keeps its creation time; every other row is unchanged |
| DeviceStatusModel.HeartbeatIdempotent | backend/src/models/deviceStatusModel.js:26-33 | repeating the upsert with the same `now` yields the same table |
| DeviceStatusModel.HeartbeatReadsRecentlyActive | backend/src/models/deviceStatusModel.js:24-57 | right after an upsert at time h the single-device read finds the device online with heartbeat h, and recently active exactly while fewer than 120 s have passed since h |
| DeviceStatusModel.MarkDeviceOffline | backend/src/models/deviceStatusModel.js:101-106 | an existing row goes offline with `now` as update time and keeps both timestamps; no row is inserted for an unknown device; other rows are unchanged |
| DeviceStatusModel.RecentlyActive | backend/src/models/deviceStatusModel.js:53-57 | null exactly when there is no heartbeat; otherwise true exactly when the heartbeat is less than 120 s old, so exactly 120 s is false |
| DeviceStatusModel.GetDeviceOnlineStatus | backend/src/models/deviceStatusModel.js:46-70 | no row (undefined) exactly when the device has none; otherwise the row's fields with the recently-active rule applied |
| DeviceStatusModel.LatestFirst | backend/src/models/deviceStatusModel.js:88-90 | every device of the table exactly once, ordered by update time, newest first |
| DeviceStatusModel.GetAllDeviceStatuses | backend/src/models/deviceStatusModel.js:72-99 | one listing per row, each with the same recently-active rule as the single read and the owner's name and email when there is one, ordered by update time descending |
| DeviceStatusModel.RowExistsIffUpserted | backend/src/models/deviceStatusModel.js:24-34 | after a history of heartbeats and offline marks, a device has a row exactly when it had one before or was upserted; marking offline never creates a row |
| DeviceStatusModel.NeverUpsertedReadsUndefined | backend/src/models/deviceStatusModel.js:59-67 | starting from an empty table, the single-device read is undefined exactly for devices never upserted |
| AdminController.CreateUser | backend/src/controllers/adminController.js:143-168 | missing name, email or password gives 400, an email already in use gives 400, both with the store unchanged; otherwise 201 and exactly the new user is added, with role "user" when none was sent (a `newId` already in the store stands for a failed insert: 500) |
| AdminController.UpdateUser | backend/src/controllers/adminController.js:170-206 | checks in order: missing id, name, email or role give 400; unknown id 404; an email held by another user 400; otherwise 200 replacing that user's name, email and role; the store changes only on 200 |
| AdminController.KeepingOwnEmailIsAllowed | backend/src/controllers/adminController.js:191-194 | with unique emails, updating an existing user with their own current email succeeds |
| AdminController.ReadAfterCreateOrDelete | backend/src/controllers/adminController.js:30-54 | after a 201 create, reading the new id gives 200 with the created user; after deleting an id, reading it gives 404 |
| AdminController.DeleteUser | backend/src/controllers/adminController.js:208-232 | an unknown id gives 404 and changes nothing; otherwise 200 and exactly that user is removed, every other user unchanged |
| AdminController.GetUserById | backend/src/controllers/adminController.js:30-54 | 404 when the user is absent, 200 with that user otherwise |
| AdminController.UpdateUserRole | backend/src/controllers/adminController.js:56-88 | 400 when id or role is missing, otherwise 200 echoing the id and role; the store is never changed |
| AdminController.GetDeviceStatus | backend/src/controllers/adminController.js:90-119 | 200 exactly when every listed device has a status row, with one entry per device in the same order carrying that row's online flag and timestamps; otherwise 500 |
| AdminController.CreatePreservesUniqueEmails | backend/src/controllers/adminController.js:152-158 | creating a user keeps every email held by at most one user |
| AdminController.UpdatePreservesUniqueEmails | backend/src/controllers/adminController.js:190-196 | updating a user keeps every email held by at most one user |
| AdminController.HandlingPreservesUniqueEmails | backend/src/controllers/adminController.js:143-232 | any sequence of create, update, delete and role requests keeps every email held by at most one user |

## Left out

- Android lifecycle, the foreground notification, `START_STICKY`, the timer and the coroutine dispatchers: operating-system plumbing. The sync cycle is modelled sequentially, with the launched upload as a separate step.
- The race between the notification callback and the sync coroutine on the unsynchronised queue: concurrency. Captures during an upload are modelled only as appends to the live queue before `FinishUpload`.
- `clearOldNotifications` is called by the sync service but not defined in NotificationListener.kt; `ClearOld` assumes it drops the n oldest records, as the comment at its call site says, and leaves the queue alone when n exceeds its size, which is this model's choice since the only call site asks for at most half.
- The catch-all `catch` of the sync cycle: none of the modelled steps of the cycle throws, so it is not modelled.
- Timestamp formatting with `SimpleDateFormat`: a locale-dependent library call. Timestamps are opaque strings.
- Logging, toasts and the `Log` calls: no effect on state.
- The `minutes_ago` columns: floating point. `getDeviceOnlineStatus` does not select them, so the corresponding fields of `getDeviceStatus` carry nothing and are not modelled either.
- The `users` left join of `getAllDeviceStatuses` is a map from device id to owner, since `users.device_id` is unique.
- `createDeviceStatusTable`, the database driver and the `id`/serial columns: schema management.
- Database errors in general are not modelled. The 500 of `CreateUser` for a `newId` already in the store stands for a failed insert, which the serial id never causes in practice; the 500 of `GetDeviceStatus` comes from reading a status row that does not exist.
- `getAllUsersHandler` and `getNotificationsForUser`: plain reads of the hidden user and notification models with no decision logic.
- The user model itself: password hashing, `parseInt` of route ids (ids are natural numbers, a missing id is `None`), and which row `findUserByEmail` returns when the store already holds duplicates (the model asks whether some other user holds the email, which is the same under the uniqueness invariant).
- `getAllDevices` belongs to the hidden user model; `GetDeviceStatus` takes its result as a parameter.
- AdminController.CreateUser: the stored row and the 201 body are whatever the user model's `createUser` produces; the model takes them to be the name, email, password and role sent (password hashing, the serial id and the device columns are the user model's and are not modelled).
- AdminController.CreateUser: a role sent as JSON `null` is not distinguished from an absent one; `None` takes the default "user".
- HTTP, Retrofit and Gson: the upload request and response are plain datatypes.
