/**
 * The backend's device_status table as a map from device id to row, with the
 * upsert done on every ingest, the offline mark, and the reads that derive
 * whether a device was recently active. Times are whole seconds and the
 * statement time (NOW()) is the parameter `now`.
 */
module DeviceStatusModel {
  import opened Wrappers

  type DeviceId = string
  type Time = int

  /** A heartbeat counts as recent when it is strictly less than this many seconds old. */
  const RecentWindow: int := 120

  datatype Row = Row(isOnline: bool, lastHeartbeat: Option<Time>, lastNotificationSync: Option<Time>, createdAt: Time, updatedAt: Time)

  /** At most one row per device: device_id is UNIQUE. */
  type Table = map<DeviceId, Row>

  /**
   * updateDeviceHeartbeat: the row for `d` is online with both timestamps set
   * to `now`, whether it was inserted or updated; an inserted row takes `now`
   * as its creation time, an updated one keeps its own. No other row changes.
   */
  function UpdateDeviceHeartbeat(t: Table, d: DeviceId, now: Time): (t': Table)
    ensures t'.Keys == t.Keys + {d}
    ensures t'[d].isOnline && t'[d].lastHeartbeat == Some(now) && t'[d].lastNotificationSync == Some(now)
    ensures t'[d].updatedAt == now
    ensures t'[d].createdAt == (if d in t then t[d].createdAt else now)
    ensures forall e :: e in t && e != d ==> t'[e] == t[e]
  {
    if d in t then
      t[d := t[d].(isOnline := true, lastHeartbeat := Some(now), lastNotificationSync := Some(now), updatedAt := now)]
    else
      t[d := Row(true, Some(now), Some(now), now, now)]
  }

  /** Repeating the upsert at the same time changes nothing further. */
  lemma HeartbeatIdempotent(t: Table, d: DeviceId, now: Time)
    ensures UpdateDeviceHeartbeat(UpdateDeviceHeartbeat(t, d, now), d, now) == UpdateDeviceHeartbeat(t, d, now)
  {
  }

  /**
   * markDeviceOffline: an existing row goes offline with `now` as its update
   * time and keeps both timestamps; a device without a row gets none.
   */
  function MarkDeviceOffline(t: Table, d: DeviceId, now: Time): (t': Table)
    ensures t'.Keys == t.Keys
    ensures d in t ==> t'[d] == Row(false, t[d].lastHeartbeat, t[d].lastNotificationSync, t[d].createdAt, now)
    ensures forall e :: e in t && e != d ==> t'[e] == t[e]
  {
    if d in t then t[d := t[d].(isOnline := false, updatedAt := now)] else t
  }

  /**
   * The is_recently_active column: NULL without a heartbeat, otherwise whether
   * the heartbeat is less than RecentWindow seconds old (exactly RecentWindow
   * seconds is not recent).
   */
  function RecentlyActive(lastHeartbeat: Option<Time>, now: Time): (r: Option<bool>)
    ensures r.None? <==> lastHeartbeat.None?
    ensures lastHeartbeat.Some? ==> (r.value <==> now - lastHeartbeat.value < RecentWindow)
  {
    match lastHeartbeat
    case None => None
    case Some(h) => Some(h > now - RecentWindow)
  }

  /** A row as getDeviceOnlineStatus selects it. */
  datatype OnlineStatus = OnlineStatus(
    deviceId: DeviceId, isOnline: bool, lastHeartbeat: Option<Time>, lastNotificationSync: Option<Time>,
    isRecentlyActive: Option<bool>)

  /** The selected row for `d`, or None (undefined) when `d` has no row. */
  function GetDeviceOnlineStatus(t: Table, d: DeviceId, now: Time): (r: Option<OnlineStatus>)
    ensures r.None? <==> d !in t
    ensures r.Some? ==>
      && r.value.deviceId == d
      && r.value.isOnline == t[d].isOnline
      && r.value.lastHeartbeat == t[d].lastHeartbeat
      && r.value.lastNotificationSync == t[d].lastNotificationSync
      && r.value.isRecentlyActive == RecentlyActive(t[d].lastHeartbeat, now)
  {
    if d in t then
      Some(OnlineStatus(d, t[d].isOnline, t[d].lastHeartbeat, t[d].lastNotificationSync, RecentlyActive(t[d].lastHeartbeat, now)))
    else None
  }

  /**
   * What the heartbeat is for: right after an upsert at time `h`, the device
   * reads as online, and as recently active exactly while fewer than
   * RecentWindow seconds have passed since `h`.
   */
  lemma HeartbeatReadsRecentlyActive(t: Table, d: DeviceId, h: Time, now: Time)
    ensures var r := GetDeviceOnlineStatus(UpdateDeviceHeartbeat(t, d, h), d, now);
      && r.Some? && r.value.isOnline
      && r.value.lastHeartbeat == Some(h)
      && r.value.isRecentlyActive == Some(now - h < RecentWindow)
  {
  }

  /** The name and email of the user a device belongs to (users.device_id is UNIQUE). */
  datatype Owner = Owner(name: string, email: string)

  /** A row of getAllDeviceStatuses: the status row left-joined with its owner. */
  datatype StatusListing = StatusListing(
    deviceId: DeviceId, isOnline: bool, lastHeartbeat: Option<Time>, lastNotificationSync: Option<Time>,
    userName: Option<string>, userEmail: Option<string>, isRecentlyActive: Option<bool>)

  function Listing(t: Table, owners: map<DeviceId, Owner>, d: DeviceId, now: Time): StatusListing
    requires d in t
  {
    StatusListing(
      d, t[d].isOnline, t[d].lastHeartbeat, t[d].lastNotificationSync,
      if d in owners then Some(owners[d].name) else None,
      if d in owners then Some(owners[d].email) else None,
      RecentlyActive(t[d].lastHeartbeat, now))
  }

  /** `d` was updated no earlier than any device of `s`. */
  predicate IsLatest(t: Table, s: set<DeviceId>, d: DeviceId)
    requires s <= t.Keys && d in t
  {
    forall e :: e in s ==> t[e].updatedAt <= t[d].updatedAt
  }

  /** Every non-empty set of devices has a most recently updated one. */
  lemma {:induction false} LatestExists(t: Table, s: set<DeviceId>)
    requires s != {} && s <= t.Keys
    ensures exists d :: d in s && IsLatest(t, s, d)
    decreases |s|
  {
    var x :| x in s;
    var rest := s - {x};
    if rest == {} {
      assert s == {x};
      assert IsLatest(t, s, x);
    } else {
      LatestExists(t, rest);
      var y :| y in rest && IsLatest(t, rest, y);
      if t[x].updatedAt >= t[y].updatedAt {
        assert IsLatest(t, s, x);
      } else {
        assert IsLatest(t, s, y);
      }
    }
  }

  /**
   * The ORDER BY of getAllDeviceStatuses: every device of the table exactly
   * once, most recently updated first. Devices updated at the same time come
   * in no particular order.
   */
  method LatestFirst(t: Table) returns (order: seq<DeviceId>)
    ensures |order| == |t|
    ensures forall d :: d in t <==> d in order
    ensures forall i, j :: 0 <= i < j < |order| ==> order[i] != order[j]
    ensures forall i, j :: 0 <= i < j < |order| ==> t[order[i]].updatedAt >= t[order[j]].updatedAt
  {
    var remaining := t.Keys;
    order := [];
    while remaining != {}
      invariant remaining <= t.Keys
      invariant |order| + |remaining| == |t|
      invariant forall i :: 0 <= i < |order| ==> order[i] in t && order[i] !in remaining
      invariant forall d :: d in t ==> d in remaining || d in order
      invariant forall i, j :: 0 <= i < j < |order| ==> order[i] != order[j]
      invariant forall i, j :: 0 <= i < j < |order| ==> t[order[i]].updatedAt >= t[order[j]].updatedAt
      invariant forall i, e :: 0 <= i < |order| && e in remaining ==> t[order[i]].updatedAt >= t[e].updatedAt
      decreases |remaining|
    {
      LatestExists(t, remaining);
      var d :| d in remaining && IsLatest(t, remaining, d);
      order := order + [d];
      remaining := remaining - {d};
    }
  }

  /**
   * getAllDeviceStatuses: one listing per row of the table, built by the same
   * recently-active rule as the single-device read and joined with the
   * device's owner, ordered by update time, newest first.
   */
  method GetAllDeviceStatuses(t: Table, owners: map<DeviceId, Owner>, now: Time) returns (rows: seq<StatusListing>)
    ensures |rows| == |t|
    ensures forall i :: 0 <= i < |rows| ==> rows[i].deviceId in t && rows[i] == Listing(t, owners, rows[i].deviceId, now)
    ensures forall i, j :: 0 <= i < j < |rows| ==> rows[i].deviceId != rows[j].deviceId
    ensures forall d :: d in t ==> exists i :: 0 <= i < |rows| && rows[i].deviceId == d
    ensures forall i, j :: 0 <= i < j < |rows| ==> t[rows[i].deviceId].updatedAt >= t[rows[j].deviceId].updatedAt
  {
    var order := LatestFirst(t);
    rows := seq(|order|, i requires 0 <= i < |order| => Listing(t, owners, order[i], now));
    assert forall i :: 0 <= i < |rows| ==> rows[i].deviceId == order[i];
    forall d | d in t
      ensures exists i :: 0 <= i < |rows| && rows[i].deviceId == d
    {
      var i :| 0 <= i < |order| && order[i] == d;
      assert rows[i].deviceId == d;
    }
  }

  /** The two writes the backend performs on the table. */
  datatype StatusWrite =
    | Heartbeat(device: DeviceId, at: Time)
    | MarkOffline(device: DeviceId, at: Time)

  function Apply(t: Table, w: StatusWrite): Table {
    match w
    case Heartbeat(d, at) => UpdateDeviceHeartbeat(t, d, at)
    case MarkOffline(d, at) => MarkDeviceOffline(t, d, at)
  }

  function ApplyAll(t: Table, ws: seq<StatusWrite>): Table
    decreases |ws|
  {
    if ws == [] then t else ApplyAll(Apply(t, ws[0]), ws[1..])
  }

  /** Some write of the history is a heartbeat of `d`. */
  predicate Upserted(ws: seq<StatusWrite>, d: DeviceId) {
    exists i :: 0 <= i < |ws| && ws[i].Heartbeat? && ws[i].device == d
  }

  /**
   * A device has a row after a history of writes exactly when it had one
   * before or the history upserted it: marking offline never creates a row.
   */
  lemma {:induction false} RowExistsIffUpserted(t: Table, ws: seq<StatusWrite>, d: DeviceId)
    ensures d in ApplyAll(t, ws) <==> d in t || Upserted(ws, d)
    decreases |ws|
  {
    if ws != [] {
      var rest := ws[1..];
      RowExistsIffUpserted(Apply(t, ws[0]), rest, d);
      if Upserted(ws, d) {
        var i :| 0 <= i < |ws| && ws[i].Heartbeat? && ws[i].device == d;
        if i > 0 {
          assert rest[i - 1] == ws[i];
        }
      }
      if Upserted(rest, d) {
        var i :| 0 <= i < |rest| && rest[i].Heartbeat? && rest[i].device == d;
        assert ws[i + 1] == rest[i];
      }
    }
  }

  /** Starting from an empty table, a device that was never upserted reads as undefined. */
  lemma NeverUpsertedReadsUndefined(ws: seq<StatusWrite>, d: DeviceId, now: Time)
    ensures GetDeviceOnlineStatus(ApplyAll(map[], ws), d, now).None? <==> !Upserted(ws, d)
  {
    RowExistsIffUpserted(map[], ws, d);
  }
}
