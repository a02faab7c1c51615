/** The request handlers of the server (`main.py`) that touch the store:
    upload with the inactivity rule, alert polling, per-device reset and
    the activity listing. Timestamps are integer seconds. */
module Server {
  import opened Wrappers
  import Database

  /** Three minutes, in seconds. */
  const InactivityThresholdSeconds: int := 3 * 60

  const InactivityMessage: string := "Move! You've been inactive for a while."

  /** The body of an upload (`StepData`). */
  datatype StepData = StepData(deviceId: string, steps: int, timestamp: int)

  /** The inactivity rule, read on the log after the new packet was stored:
      at least two entries, and the last one more than three minutes after
      the one before it in list order (not timestamp order). */
  predicate Inactive(log: seq<Database.Entry>) {
    |log| >= 2 && log[|log| - 1].timestamp - log[|log| - 2].timestamp > InactivityThresholdSeconds
  }

  /** `receive_step_data`: stores the packet first, then pushes at most one
      inactivity alert. The reply is always `{"ok": True}` (the `bool`). */
  function ReceiveStepData(db: Database.Db, payload: StepData): (r: (Database.Db, bool))
    ensures r.1
    ensures var dev := payload.deviceId;
              Database.GetActivity(r.0, dev) == Database.GetActivity(db, dev) + [Database.Entry(payload.timestamp, payload.steps)]
    ensures var dev := payload.deviceId;
            var before := Database.GetActivity(db, dev);
            var fired := |before| >= 1 && payload.timestamp - before[|before| - 1].timestamp > InactivityThresholdSeconds;
              Database.Queue(r.0, dev) == Database.Queue(db, dev) + (if fired then [InactivityMessage] else [])
  {
    var stored := Database.StoreActivity(db, payload.deviceId, payload.steps, payload.timestamp);
    var log := Database.GetActivity(stored, payload.deviceId);
    if Inactive(log) then (Database.PushAlert(stored, payload.deviceId, InactivityMessage), true)
    else (stored, true)
  }

  /** An upload touches only its own device's log and queue. */
  lemma OtherDevicesUntouched(db: Database.Db, payload: StepData, d: string)
    requires d != payload.deviceId
    ensures Database.GetActivity(ReceiveStepData(db, payload).0, d) == Database.GetActivity(db, d)
    ensures Database.Queue(ReceiveStepData(db, payload).0, d) == Database.Queue(db, d)
  {
  }

  /** `get_alert`: consumes the oldest queued alert, or answers null and
      changes nothing. */
  function GetAlert(db: Database.Db, device: string): (r: (Database.Db, Option<string>))
    ensures Database.Queue(db, device) == [] ==> r.1.None? && r.0 == db
    ensures Database.Queue(db, device) != [] ==>
              r.1 == Some(Database.Queue(db, device)[0]) && Database.Queue(db, device) == [r.1.value] + Database.Queue(r.0, device)
    ensures r.0.activity == db.activity
    ensures forall d :: d != device ==> Database.Queue(r.0, d) == Database.Queue(db, d)
  {
    Database.PopAlert(db, device)
  }

  /** `reset_user`: clears the device's log and alert queue. */
  function ResetUser(db: Database.Db, device: string): (r: (Database.Db, bool))
    ensures r.1
    ensures Database.GetActivity(r.0, device) == [] && Database.Queue(r.0, device) == []
    ensures forall d :: d != device ==>
              Database.GetActivity(r.0, d) == Database.GetActivity(db, d) && Database.Queue(r.0, d) == Database.Queue(db, d)
  {
    (Database.ResetDeviceData(db, device), true)
  }

  /** `user_activity`: the device's log, empty for an unknown device; the
      store is not changed. */
  function UserActivity(db: Database.Db, device: string): (r: seq<Database.Entry>)
    ensures device !in db.activity ==> r == []
    ensures device in db.activity ==> r == db.activity[device]
  {
    Database.GetActivity(db, device)
  }

  /** Uploads from one device in order. */
  function ReceiveAll(db: Database.Db, ps: seq<StepData>): (r: Database.Db)
    decreases |ps|
  {
    if ps == [] then db else ReceiveStepData(ReceiveAll(db, ps[..|ps| - 1]), ps[|ps| - 1]).0
  }

  /** Number of consecutive packets more than three minutes apart. */
  function Gaps(ps: seq<StepData>): nat
    decreases |ps|
  {
    if |ps| < 2 then 0
    else Gaps(ps[..|ps| - 1]) + (if ps[|ps| - 1].timestamp - ps[|ps| - 2].timestamp > InactivityThresholdSeconds then 1 else 0)
  }

  /** The log entries the packets become. */
  function Entries(ps: seq<StepData>): (r: seq<Database.Entry>)
    ensures |r| == |ps|
  {
    if ps == [] then [] else Entries(ps[..|ps| - 1]) + [Database.Entry(ps[|ps| - 1].timestamp, ps[|ps| - 1].steps)]
  }

  /** The device's log grows by every packet, in arrival order. */
  lemma {:induction false} LogRecordsEveryPacket(db: Database.Db, device: string, ps: seq<StepData>)
    requires forall i :: 0 <= i < |ps| ==> ps[i].deviceId == device
    ensures Database.GetActivity(ReceiveAll(db, ps), device) == Database.GetActivity(db, device) + Entries(ps)
    decreases |ps|
  {
    if ps != [] {
      var n := |ps| - 1;
      var pre := ps[..n];
      LogRecordsEveryPacket(db, device, pre);
      var e := Database.Entry(ps[n].timestamp, ps[n].steps);
      assert ps[n].deviceId == device;
      calc {
        Database.GetActivity(ReceiveAll(db, ps), device);
        Database.GetActivity(ReceiveAll(db, pre), device) + [e];
        (Database.GetActivity(db, device) + Entries(pre)) + [e];
        { assert Entries(ps) == Entries(pre) + [e]; }
        Database.GetActivity(db, device) + Entries(ps);
      }
    }
  }

  /** The packet arrives more than three minutes after the last of `pre`. */
  predicate FollowsGap(pre: seq<StepData>, p: StepData) {
    |pre| >= 1 && p.timestamp - pre[|pre| - 1].timestamp > InactivityThresholdSeconds
  }

  /** One upload onto a log that holds exactly the earlier packets queues an
      alert exactly when this packet is more than three minutes after the
      previous one. */
  lemma GapStep(before: Database.Db, p: StepData, pre: seq<StepData>)
    requires Database.GetActivity(before, p.deviceId) == Entries(pre)
    ensures FollowsGap(pre, p) ==>
              Database.Queue(ReceiveStepData(before, p).0, p.deviceId) == Database.Queue(before, p.deviceId) + [InactivityMessage]
    ensures !FollowsGap(pre, p) ==>
              Database.Queue(ReceiveStepData(before, p).0, p.deviceId) == Database.Queue(before, p.deviceId)
  {
    if |pre| >= 1 {
      var log := Database.GetActivity(before, p.deviceId);
      assert log[|log| - 1].timestamp == pre[|pre| - 1].timestamp;
    }
  }

  /** From a fresh device, a stream of uploads queues exactly one alert per
      gap of more than three minutes between consecutive packets. */
  lemma {:induction false} AlertsCountGaps(db: Database.Db, device: string, ps: seq<StepData>)
    requires Database.GetActivity(db, device) == [] && Database.Queue(db, device) == []
    requires forall i :: 0 <= i < |ps| ==> ps[i].deviceId == device
    ensures |Database.Queue(ReceiveAll(db, ps), device)| == Gaps(ps)
    decreases |ps|
  {
    if ps != [] {
      var n := |ps| - 1;
      var pre := ps[..n];
      AlertsCountGaps(db, device, pre);
      LogRecordsEveryPacket(db, device, pre);
      assert ps[n].deviceId == device;
      GapStep(ReceiveAll(db, pre), ps[n], pre);
      assert ReceiveAll(db, ps) == ReceiveStepData(ReceiveAll(db, pre), ps[n]).0;
      assert Gaps(ps) == Gaps(pre) + (if FollowsGap(pre, ps[n]) then 1 else 0) by {
        if n >= 1 {
          assert pre[n - 1] == ps[n - 1];
        }
      }
    }
  }
}
