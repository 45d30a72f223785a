/**
 * The sync side of the Android client: one timer tick of the sync cycle, the
 * upload with its bounded retry, and what the finished upload does to the
 * capture queue. Time and network outcomes are inputs; waits are returned as
 * millisecond amounts instead of being slept.
 */
module BackgroundSync {
  import opened Wrappers
  import NotificationListener

  type NotificationData = NotificationListener.NotificationData
  type Queue = NotificationListener.Queue

  const MaxRetries: nat := 3
  /** The wait after the k-th failed attempt is k times this many milliseconds. */
  const BackoffStepMs: nat := 2000
  /** After a failed upload the queue is halved only when it holds more than this. */
  const QueueCeiling: nat := 1000

  /** One notification as serialised in the upload request. */
  datatype ApiNotificationData = ApiNotificationData(appName: string, sender: string, message: string, timestamp: string)

  datatype UploadRequest = UploadRequest(deviceId: string, notifications: seq<ApiNotificationData>, permissionStatus: bool)

  /** What one call to the upload endpoint produced. */
  datatype CallOutcome =
    | Threw
    | Responded(isSuccessful: bool, hasBody: bool)

  /** The only outcome that ends the retry loop with success. */
  predicate Accepted(o: CallOutcome) {
    o.Responded? && o.isSuccessful && o.hasBody
  }

  /**
   * The outcome of the call with index `k` in a network script. A call past the
   * end of the script stands for one that never answered and timed out.
   */
  function OutcomeAt(script: seq<CallOutcome>, k: nat): CallOutcome {
    if k < |script| then script[k] else Threw
  }

  function ToApi(n: NotificationData): ApiNotificationData {
    ApiNotificationData(n.appName, n.sender, n.message, n.timestamp)
  }

  function FromApi(a: ApiNotificationData): NotificationData {
    NotificationListener.NotificationData(a.appName, a.sender, a.message, a.timestamp)
  }

  /**
   * The request body built from the captured list: same length and order,
   * each entry reading back as the captured record it came from.
   */
  function BuildRequest(deviceId: string, notifications: seq<NotificationData>, permissionStatus: bool): (r: UploadRequest)
    ensures r.deviceId == deviceId && r.permissionStatus == permissionStatus
    ensures |r.notifications| == |notifications|
    ensures forall i :: 0 <= i < |notifications| ==> FromApi(r.notifications[i]) == notifications[i]
  {
    UploadRequest(deviceId, seq(|notifications|, i requires 0 <= i < |notifications| => ToApi(notifications[i])), permissionStatus)
  }

  /** The wait, in milliseconds, after the `k`-th failed attempt. */
  function Backoff(k: nat): nat {
    BackoffStepMs * k
  }

  /**
   * uploadNotifications: at most MaxRetries calls, each sending the same
   * request. Success is reported exactly when one of the first MaxRetries
   * calls is accepted, and the loop stops right after that call. Each failed
   * call (exception, non-success status, or success without a body) raises
   * the retry count by one and is followed by a wait of Backoff(count) unless
   * the count has reached MaxRetries.
   */
  method UploadNotifications(deviceId: string, notifications: seq<NotificationData>, permissionStatus: bool, script: seq<CallOutcome>)
    returns (success: bool, calls: seq<UploadRequest>, delays: seq<nat>)
    ensures 1 <= |calls| <= MaxRetries
    ensures forall i :: 0 <= i < |calls| ==> calls[i] == BuildRequest(deviceId, notifications, permissionStatus)
    ensures success <==> exists k :: 0 <= k < MaxRetries && Accepted(OutcomeAt(script, k))
    ensures success ==> Accepted(OutcomeAt(script, |calls| - 1))
    ensures forall k :: 0 <= k < |calls| - 1 ==> !Accepted(OutcomeAt(script, k))
    ensures !success ==> |calls| == MaxRetries
    ensures |delays| == (if success then |calls| - 1 else MaxRetries - 1)
    ensures forall i :: 0 <= i < |delays| ==> delays[i] == Backoff(i + 1)
    ensures !success ==> delays == [2000, 4000]
  {
    var retryCount: nat := 0;
    calls := [];
    delays := [];
    while retryCount < MaxRetries
      invariant retryCount <= MaxRetries
      invariant |calls| == retryCount
      invariant forall i :: 0 <= i < |calls| ==> calls[i] == BuildRequest(deviceId, notifications, permissionStatus)
      invariant forall k :: 0 <= k < retryCount ==> !Accepted(OutcomeAt(script, k))
      invariant |delays| == (if retryCount < MaxRetries then retryCount else MaxRetries - 1)
      invariant forall i :: 0 <= i < |delays| ==> delays[i] == Backoff(i + 1)
    {
      var request := BuildRequest(deviceId, notifications, permissionStatus);
      calls := calls + [request];
      var response := OutcomeAt(script, retryCount);
      match response
      case Responded(isSuccessful, hasBody) =>
        if isSuccessful {
          if hasBody {
            success := true;
            return;
          } else {
            retryCount := retryCount + 1;
            if retryCount < MaxRetries {
              delays := delays + [Backoff(retryCount)];
            }
          }
        } else {
          retryCount := retryCount + 1;
          if retryCount < MaxRetries {
            delays := delays + [Backoff(retryCount)];
          }
        }
      case Threw =>
        retryCount := retryCount + 1;
        if retryCount < MaxRetries {
          delays := delays + [Backoff(retryCount)];
        }
    }
    success := false;
  }

  /** What a timer tick did. */
  datatype TickEffect =
    | Skipped                                 // a cycle was already marked as running
    | ListenerNotRunning                      // no capture service to read from
    | NoDeviceId                              // the device was never verified
    | UploadLaunched(request: UploadRequest)  // an upload was started in the background

  datatype TickResult = TickResult(isSyncing: bool, effect: TickEffect)

  /** checkNotificationAccess is a stub that always grants access. */
  const HasNotificationAccess := true

  /**
   * syncNotifications, the synchronous part. `listenerQueue` is None when the
   * capture service is not running. The upload is only launched: the flag is
   * cleared on leaving the try block, before the upload has finished.
   */
  function Tick(isSyncing: bool, listenerQueue: Option<Queue>, deviceId: Option<string>): (r: TickResult)
    ensures isSyncing ==> r == TickResult(true, Skipped)
    ensures !isSyncing ==> !r.isSyncing
    ensures !isSyncing && listenerQueue.None? ==> r.effect == ListenerNotRunning
    ensures !isSyncing && listenerQueue.Some? && deviceId.None? ==> r.effect == NoDeviceId
    ensures r.effect.UploadLaunched? <==> !isSyncing && listenerQueue.Some? && deviceId.Some?
    ensures r.effect.UploadLaunched? ==>
      r.effect.request == BuildRequest(deviceId.value, listenerQueue.value, HasNotificationAccess)
  {
    if isSyncing then TickResult(true, Skipped)
    else if listenerQueue.None? then TickResult(false, ListenerNotRunning)
    else
      var notifications := NotificationListener.Snapshot(listenerQueue.value);
      if deviceId.None? then TickResult(false, NoDeviceId)
      else TickResult(false, UploadLaunched(BuildRequest(deviceId.value, notifications, HasNotificationAccess)))
  }

  /**
   * The continuation of a launched upload, applied to the live queue as it is
   * when the upload finishes: on success the whole live queue is cleared; on
   * failure it is kept, and only above the ceiling is its older half dropped.
   */
  function FinishUpload(liveQueue: Queue, uploadSuccess: bool): (q: Queue)
    ensures uploadSuccess ==> q == []
    ensures !uploadSuccess && |liveQueue| <= QueueCeiling ==> q == liveQueue
    ensures !uploadSuccess && |liveQueue| > QueueCeiling ==>
      q == NotificationListener.ClearOld(liveQueue, |liveQueue| / 2)
  {
    if uploadSuccess then NotificationListener.Clear(liveQueue)
    else
      var currentQueue := NotificationListener.Snapshot(liveQueue);
      if |currentQueue| > QueueCeiling then NotificationListener.ClearOld(liveQueue, |currentQueue| / 2)
      else liveQueue
  }

  /**
   * After a failed upload with more than QueueCeiling records, the survivors
   * are exactly the newest N - N/2 records in their original order, more than
   * half the ceiling of them.
   */
  lemma TrimKeepsNewestHalf(liveQueue: Queue)
    requires |liveQueue| > QueueCeiling
    ensures var q := FinishUpload(liveQueue, false);
      && |q| == |liveQueue| - |liveQueue| / 2
      && |q| > QueueCeiling / 2
      && q == liveQueue[|liveQueue| / 2..]
  {
  }

  /** The state the sync step acts on: the service's flag and the listener's queue. */
  datatype SyncState = SyncState(isSyncing: bool, queue: Queue)

  /**
   * One sync cycle run to completion with nothing captured meanwhile, the
   * upload's result given. `listenerRunning` and `deviceId` are what the tick
   * finds.
   */
  function SyncStep(s: SyncState, listenerRunning: bool, deviceId: Option<string>, uploadSuccess: bool): (r: SyncState)
    ensures s.isSyncing ==> r == s
    ensures !s.isSyncing ==> !r.isSyncing
    ensures !listenerRunning || deviceId.None? ==> r.queue == s.queue
    ensures !s.isSyncing && listenerRunning && deviceId.Some? && uploadSuccess ==> r.queue == []
    ensures !s.isSyncing && listenerRunning && deviceId.Some? && !uploadSuccess ==>
      (if |s.queue| > QueueCeiling then r.queue == s.queue[|s.queue| / 2..] else r.queue == s.queue)
  {
    var tick := Tick(s.isSyncing, if listenerRunning then Some(s.queue) else None, deviceId);
    match tick.effect
    case UploadLaunched(_) => SyncState(tick.isSyncing, FinishUpload(s.queue, uploadSuccess))
    case _ => SyncState(tick.isSyncing, s.queue)
  }

  /**
   * The flag does not keep uploads apart: once a tick has launched an upload,
   * the very next tick, while that upload may still be running, launches
   * another one with the same records.
   */
  lemma UploadsMayOverlap(q: Queue, deviceId: string)
    ensures var first := Tick(false, Some(q), Some(deviceId));
      var second := Tick(first.isSyncing, Some(q), Some(deviceId));
      && first.effect.UploadLaunched?
      && second.effect.UploadLaunched?
      && first.effect.request == second.effect.request
  {
  }

  /**
   * The success path clears the live queue, not the uploaded snapshot. The
   * request carries exactly the records queued at the tick; by the time the
   * upload finishes the live queue also holds the records of the postings
   * captured meanwhile, and all of it is emptied, so those later records are
   * discarded without having been sent.
   */
  lemma {:induction false} CapturesDuringUploadAreDiscarded(q: Queue, deviceId: string, later: seq<NotificationListener.Posted>)
    ensures var tick := Tick(false, Some(q), Some(deviceId));
      && tick.effect.UploadLaunched?
      && |tick.effect.request.notifications| == |q|
      && (forall i :: 0 <= i < |q| ==> FromApi(tick.effect.request.notifications[i]) == q[i])
    ensures var live := NotificationListener.CaptureAll(q, later);
      && live == q + NotificationListener.Readables(later)
      && live[|q|..] == NotificationListener.Readables(later)
      && FinishUpload(live, true) == []
  {
    NotificationListener.CaptureAllIsFifo(q, later);
  }
}
