/** The server's in-memory store (`database.py`): per device, an
    append-only activity log and a FIFO queue of alert messages. Both
    Python dictionaries are `defaultdict(list)`, so writing to an unknown
    device creates its entry. Timestamps are integer seconds (UTC). */
module Database {
  import opened Wrappers

  datatype Entry = Entry(timestamp: int, steps: int)

  datatype Db = Db(activity: map<string, seq<Entry>>, alerts: map<string, seq<string>>)

  const Empty := Db(map[], map[])

  /** `get_activity`: the device's entries, or the empty list for a device
      never seen (the lookup does not create it). */
  function GetActivity(db: Db, device: string): (r: seq<Entry>)
    ensures device !in db.activity ==> r == []
    ensures device in db.activity ==> r == db.activity[device]
  {
    if device in db.activity then db.activity[device] else []
  }

  /** The device's pending alerts, oldest first. */
  function Queue(db: Db, device: string): (r: seq<string>)
    ensures device !in db.alerts ==> r == []
  {
    if device in db.alerts then db.alerts[device] else []
  }

  /** `store_activity`: appends exactly one entry at the end of this
      device's log; nothing else changes. */
  function StoreActivity(db: Db, device: string, steps: int, timestamp: int): (r: Db)
    ensures GetActivity(r, device) == GetActivity(db, device) + [Entry(timestamp, steps)]
    ensures forall d :: d != device ==> GetActivity(r, d) == GetActivity(db, d)
    ensures r.activity.Keys == db.activity.Keys + {device}
    ensures r.alerts == db.alerts
  {
    db.(activity := db.activity[device := GetActivity(db, device) + [Entry(timestamp, steps)]])
  }

  /** `push_alert`: appends the message to the end of this device's queue;
      nothing else changes. */
  function PushAlert(db: Db, device: string, message: string): (r: Db)
    ensures Queue(r, device) == Queue(db, device) + [message]
    ensures forall d :: d != device ==> Queue(r, d) == Queue(db, d)
    ensures r.activity == db.activity
  {
    db.(alerts := db.alerts[device := Queue(db, device) + [message]])
  }

  /** `pop_alert`: removes and returns the oldest message; on an empty or
      unknown queue returns None and changes nothing. */
  function PopAlert(db: Db, device: string): (r: (Db, Option<string>))
    ensures Queue(db, device) == [] ==> r == (db, None)
    ensures Queue(db, device) != [] ==>
              && r.1 == Some(Queue(db, device)[0])
              && Queue(r.0, device) == Queue(db, device)[1..]
    ensures forall d :: d != device ==> Queue(r.0, d) == Queue(db, d)
    ensures r.0.activity == db.activity
  {
    var q := Queue(db, device);
    if q == [] then (db, None)
    else (db.(alerts := db.alerts[device := q[1..]]), Some(q[0]))
  }

  /** `reset_device_data`: forgets this device's activity and alerts;
      every other device is untouched. */
  function ResetDeviceData(db: Db, device: string): (r: Db)
    ensures device !in r.activity && device !in r.alerts
    ensures GetActivity(r, device) == [] && Queue(r, device) == []
    ensures forall d :: d != device ==> GetActivity(r, d) == GetActivity(db, d) && Queue(r, d) == Queue(db, d)
  {
    Db(db.activity - {device}, db.alerts - {device})
  }

  /** Pushes the messages in order. */
  function PushAll(db: Db, device: string, ms: seq<string>): (r: Db)
    decreases |ms|
  {
    if ms == [] then db else PushAlert(PushAll(db, device, ms[..|ms| - 1]), device, ms[|ms| - 1])
  }

  /** Pops `n` times; returns the final store and what each pop returned. */
  function PopN(db: Db, device: string, n: nat): (r: (Db, seq<Option<string>>))
    ensures |r.1| == n
    decreases n
  {
    if n == 0 then (db, [])
    else
      var first := PopAlert(db, device);
      var rest := PopN(first.0, device, n - 1);
      (rest.0, [first.1] + rest.1)
  }

  function Wrap(ms: seq<string>): (r: seq<Option<string>>)
    ensures |r| == |ms|
    ensures forall i :: 0 <= i < |ms| ==> r[i] == Some(ms[i])
  {
    if ms == [] then [] else [Some(ms[0])] + Wrap(ms[1..])
  }

  lemma {:induction false} PushAllAppends(db: Db, device: string, ms: seq<string>)
    ensures Queue(PushAll(db, device, ms), device) == Queue(db, device) + ms
    decreases |ms|
  {
    if ms != [] {
      PushAllAppends(db, device, ms[..|ms| - 1]);
      assert Queue(db, device) + ms[..|ms| - 1] + [ms[|ms| - 1]] == Queue(db, device) + ms;
    }
  }

  /** `n` pops on a queue of at least `n` messages return its first `n`
      messages, oldest first, and leave the rest queued. */
  lemma {:induction false} PopNTakesOldest(db: Db, device: string, n: nat)
    requires n <= |Queue(db, device)|
    ensures PopN(db, device, n).1 == Wrap(Queue(db, device)[..n])
    ensures Queue(PopN(db, device, n).0, device) == Queue(db, device)[n..]
    decreases n
  {
    if n > 0 {
      var q := Queue(db, device);
      var first := PopAlert(db, device);
      PopNTakesOldest(first.0, device, n - 1);
      assert q[1..][..n - 1] == q[..n][1..];
      assert q[1..][n - 1..] == q[n..];
    }
  }

  /** FIFO round trip: pushing m1, ..., mk onto an empty queue and then
      popping k times returns m1, ..., mk in order and empties the queue. */
  lemma FifoRoundTrip(db: Db, device: string, ms: seq<string>)
    requires Queue(db, device) == []
    ensures PopN(PushAll(db, device, ms), device, |ms|).1 == Wrap(ms)
    ensures Queue(PopN(PushAll(db, device, ms), device, |ms|).0, device) == []
  {
    PushAllAppends(db, device, ms);
    assert Queue(db, device) + ms == ms;
    PopNTakesOldest(PushAll(db, device, ms), device, |ms|);
    assert ms[..|ms|] == ms;
  }
}
