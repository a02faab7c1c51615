/** The integer helpers of the server's analytics (`analytics.py`):
    fetching a device's log, keeping the entries of a recent window, summing
    steps per minute and per day, and the MET curve over pace. Timestamps
    are integer seconds since the epoch in UTC, so a minute starts at a
    multiple of 60 and a date is a day number `timestamp / 86400`. "Now"
    and "today" are parameters. */
module Analytics {
  import Database

  type Entry = Database.Entry

  /** A `(key, total)` pair: a minute start or a day number, and its steps. */
  type Bucket = (int, int)

  const SecondsPerMinute: int := 60
  const SecondsPerDay: int := 86400

  /** `_get_device_entries`: a copy of the device's log, empty for an
      unknown device. */
  function GetDeviceEntries(db: Database.Db, device: string): (r: seq<Entry>)
    ensures device !in db.activity ==> r == []
    ensures device in db.activity ==> r == db.activity[device]
  {
    Database.GetActivity(db, device)
  }

  function KeepSince(entries: seq<Entry>, cutoff: int): (r: seq<Entry>)
    ensures |r| <= |entries|
    decreases |entries|
  {
    if entries == [] then []
    else
      var last := entries[|entries| - 1];
      KeepSince(entries[..|entries| - 1], cutoff) + (if last.timestamp >= cutoff then [last] else [])
  }

  /** `_entries_in_window`: the entries stamped no earlier than
      `windowSeconds` before `now`, in their original order. */
  function EntriesInWindow(entries: seq<Entry>, now: int, windowSeconds: int): (r: seq<Entry>)
    ensures entries == [] ==> r == []
    ensures forall e :: e in r <==> e in entries && e.timestamp >= now - windowSeconds
  {
    if entries == [] then []
    else
      KeepSinceMembers(entries, now - windowSeconds);
      KeepSince(entries, now - windowSeconds)
  }

  lemma {:induction false} KeepSinceMembers(entries: seq<Entry>, cutoff: int)
    ensures forall e :: e in KeepSince(entries, cutoff) <==> e in entries && e.timestamp >= cutoff
    decreases |entries|
  {
    if entries != [] {
      var n := |entries| - 1;
      KeepSinceMembers(entries[..n], cutoff);
      assert entries == entries[..n] + [entries[n]];
    }
  }

  /** A stored timestamp as the server's parser leaves it: its instant in
      UTC seconds, and whether it carries a UTC offset. Every client sends
      one ("Z" from the iOS formatter and `toISOString()`, "+00:00" from
      `isoformat()` on an aware datetime), and the parser keeps it. */
  datatype Stamped = Stamped(entry: Entry, offsetAware: bool)

  /** What the list comprehension yields, or the TypeError Python raises
      when it compares an offset-aware datetime with a naive one. */
  datatype Filtered = Kept(entries: seq<Entry>) | TypeError

  function Instants(stored: seq<Stamped>): (r: seq<Entry>)
    ensures |r| == |stored|
    decreases |stored|
  {
    if stored == [] then [] else Instants(stored[..|stored| - 1]) + [stored[|stored| - 1].entry]
  }

  /** `_entries_in_window` as written: the cutoff comes from the naive
      `datetime.utcnow()`, so the comprehension raises at the first stored
      timestamp that carries an offset. Only a log of naive timestamps is
      filtered, and then exactly as `EntriesInWindow` does. */
  function EntriesInWindowAsWritten(stored: seq<Stamped>, now: int, windowSeconds: int): (r: Filtered)
    ensures stored == [] ==> r == Kept([])
    ensures r.TypeError? <==> exists i :: 0 <= i < |stored| && stored[i].offsetAware
    ensures r.Kept? ==> r.entries == KeepSince(Instants(stored), now - windowSeconds)
    decreases |stored|
  {
    if stored == [] then Kept([])
    else
      var n := |stored| - 1;
      var last := stored[n];
      var prev := EntriesInWindowAsWritten(stored[..n], now, windowSeconds);
      assert forall i :: 0 <= i < n ==> stored[..n][i] == stored[i];
      if prev.TypeError? || last.offsetAware then TypeError
      else
        assert Instants(stored) == Instants(stored[..n]) + [last.entry];
        Kept(prev.entries + (if last.entry.timestamp >= now - windowSeconds then [last.entry] else []))
  }

  /** The defect: every upload any client makes is stored offset-aware, so
      for any device with at least one entry the pace window raises instead
      of filtering, while the intended filter keeps each entry inside the
      window. */
  lemma ClientUploadsBreakPaceWindow(stored: seq<Stamped>, now: int, windowSeconds: int, i: nat)
    requires i < |stored|
    requires forall k :: 0 <= k < |stored| ==> stored[k].offsetAware
    ensures EntriesInWindowAsWritten(stored, now, windowSeconds) == TypeError
    ensures stored[i].entry.timestamp >= now - windowSeconds ==>
              stored[i].entry in EntriesInWindow(Instants(stored), now, windowSeconds)
  {
    assert stored[i].offsetAware;
    InstantsAt(stored, i);
    assert stored[i].entry in Instants(stored);
  }

  lemma {:induction false} InstantsAt(stored: seq<Stamped>, i: nat)
    requires i < |stored|
    ensures Instants(stored)[i] == stored[i].entry
    decreases |stored|
  {
    if i < |stored| - 1 {
      InstantsAt(stored[..|stored| - 1], i);
    }
  }

  /** The filter keeps the original order: filtering a concatenation is
      the concatenation of the filtered parts. */
  lemma {:induction false} WindowKeepsOrder(a: seq<Entry>, b: seq<Entry>, now: int, windowSeconds: int)
    ensures EntriesInWindow(a + b, now, windowSeconds) ==
              EntriesInWindow(a, now, windowSeconds) + EntriesInWindow(b, now, windowSeconds)
  {
    var cutoff := now - windowSeconds;
    WindowIsKeepSince(a + b, now, windowSeconds);
    WindowIsKeepSince(a, now, windowSeconds);
    WindowIsKeepSince(b, now, windowSeconds);
    KeepSinceSplits(a, b, cutoff);
  }

  /** The window filter is the cutoff filter, the empty log included. */
  lemma WindowIsKeepSince(entries: seq<Entry>, now: int, windowSeconds: int)
    ensures EntriesInWindow(entries, now, windowSeconds) == KeepSince(entries, now - windowSeconds)
  {
  }

  lemma {:induction false} KeepSinceSplits(a: seq<Entry>, b: seq<Entry>, cutoff: int)
    ensures KeepSince(a + b, cutoff) == KeepSince(a, cutoff) + KeepSince(b, cutoff)
    decreases |b|
  {
    if b == [] {
      assert a + b == a;
    } else {
      var n := |b| - 1;
      KeepSinceSplits(a, b[..n], cutoff);
      var ab := a + b;
      assert ab[..|ab| - 1] == a + b[..n];
      assert ab[|ab| - 1] == b[n];
      var tail := if b[n].timestamp >= cutoff then [b[n]] else [];
      assert KeepSince(ab, cutoff) == KeepSince(a + b[..n], cutoff) + tail;
      assert KeepSince(b, cutoff) == KeepSince(b[..n], cutoff) + tail;
      assert KeepSince(a, cutoff) + KeepSince(b[..n], cutoff) + tail
          == KeepSince(a, cutoff) + (KeepSince(b[..n], cutoff) + tail);
    }
  }

  /** How coarse a bucket is. */
  datatype Granularity = Minute | Day

  /** The bucket key of a timestamp: `replace(second=0, microsecond=0)`
      gives the start of its minute, `.date()` its day. */
  function BucketOf(g: Granularity, timestamp: int): int {
    match g
    case Minute => (timestamp / SecondsPerMinute) * SecondsPerMinute
    case Day => timestamp / SecondsPerDay
  }

  /** The reference definition of a bucket: the steps of every entry that
      falls into it. */
  function StepsIn(entries: seq<Entry>, g: Granularity, key: int): int
    decreases |entries|
  {
    if entries == [] then 0
    else
      var last := entries[|entries| - 1];
      StepsIn(entries[..|entries| - 1], g, key) + (if BucketOf(g, last.timestamp) == key then last.steps else 0)
  }

  /** Some entry falls into the bucket. */
  predicate Occupied(entries: seq<Entry>, g: Granularity, key: int) {
    exists i :: 0 <= i < |entries| && BucketOf(g, entries[i].timestamp) == key
  }

  function SumSteps(entries: seq<Entry>): int
    decreases |entries|
  {
    if entries == [] then 0 else SumSteps(entries[..|entries| - 1]) + entries[|entries| - 1].steps
  }

  /** Some bucket of the list has this key. */
  predicate HasKey(b: seq<Bucket>, key: int)
    decreases |b|
  {
    b != [] && (b[0].0 == key || HasKey(b[1..], key))
  }

  /** No key occurs twice, as in a dictionary. */
  predicate DistinctKeys(b: seq<Bucket>)
    decreases |b|
  {
    b == [] || (!HasKey(b[1..], b[0].0) && DistinctKeys(b[1..]))
  }

  /** The total a bucket list holds for `key`, 0 when absent. */
  function Lookup(b: seq<Bucket>, key: int): int
    decreases |b|
  {
    if b == [] then 0 else if b[0].0 == key then b[0].1 else Lookup(b[1..], key)
  }

  function SumTotals(b: seq<Bucket>): int
    decreases |b|
  {
    if b == [] then 0 else b[0].1 + SumTotals(b[1..])
  }

  lemma {:induction false} LookupAbsent(b: seq<Bucket>, key: int)
    requires !HasKey(b, key)
    ensures Lookup(b, key) == 0
    decreases |b|
  {
    if b != [] {
      LookupAbsent(b[1..], key);
    }
  }

  lemma {:induction false} HasKeyAt(b: seq<Bucket>, i: nat)
    requires i < |b|
    ensures HasKey(b, b[i].0)
    decreases i
  {
    if i > 0 {
      assert b[1..][i - 1] == b[i];
      HasKeyAt(b[1..], i - 1);
    }
  }

  /** `totals[key] += steps` on a dictionary that keeps insertion order: an
      existing key is updated in place, a new one goes to the end. */
  function AddTo(b: seq<Bucket>, key: int, steps: int): (r: seq<Bucket>)
    requires DistinctKeys(b)
    ensures DistinctKeys(r)
    ensures forall k :: HasKey(r, k) <==> HasKey(b, k) || k == key
    ensures forall k :: Lookup(r, k) == Lookup(b, k) + (if k == key then steps else 0)
    ensures SumTotals(r) == SumTotals(b) + steps
    decreases |b|
  {
    if b == [] then
      LookupAbsent([], key);
      [(key, steps)]
    else if b[0].0 == key then
      LookupAbsent(b[1..], key);
      [(key, b[0].1 + steps)] + b[1..]
    else
      var rest := AddTo(b[1..], key, steps);
      var r := [b[0]] + rest;
      assert r[1..] == rest;
      r
  }

  /** `_per_minute_totals` (and the `by_day` dictionary of
      `_historical_daily_totals`): the bucket totals in the order the
      buckets were first seen. Every occupied bucket is listed once, and
      nothing else is. */
  function Totals(entries: seq<Entry>, g: Granularity): (r: seq<Bucket>)
    ensures DistinctKeys(r)
    ensures forall k :: HasKey(r, k) <==> Occupied(entries, g, k)
    decreases |entries|
  {
    if entries == [] then []
    else
      var n := |entries| - 1;
      var prev := Totals(entries[..n], g);
      var key := BucketOf(g, entries[n].timestamp);
      var r := AddTo(prev, key, entries[n].steps);
      forall k ensures HasKey(r, k) <==> Occupied(entries, g, k) {
        if Occupied(entries, g, k) && k != key {
          var i :| 0 <= i < |entries| && BucketOf(g, entries[i].timestamp) == k;
          assert entries[..n][i] == entries[i];
        }
        if Occupied(entries[..n], g, k) {
          var i :| 0 <= i < n && BucketOf(g, entries[..n][i].timestamp) == k;
          assert entries[i] == entries[..n][i];
        }
      }
      r
  }

  /** Each entry contributes to exactly the bucket of its own timestamp:
      every bucket total is the reference sum of that bucket. */
  lemma {:induction false} TotalsAreBucketSums(entries: seq<Entry>, g: Granularity)
    ensures forall k :: Lookup(Totals(entries, g), k) == StepsIn(entries, g, k)
    decreases |entries|
  {
    if entries != [] {
      TotalsAreBucketSums(entries[..|entries| - 1], g);
    }
  }

  /** Bucketing neither loses nor invents steps: the bucket totals add up
      to the steps of all entries. */
  lemma {:induction false} TotalsPreserveSum(entries: seq<Entry>, g: Granularity)
    ensures SumTotals(Totals(entries, g)) == SumSteps(entries)
    decreases |entries|
  {
    if entries != [] {
      TotalsPreserveSum(entries[..|entries| - 1], g);
    }
  }

  /** `_per_minute_totals`: one bucket per minute that has entries, keyed
      by the minute's first second. */
  function PerMinuteTotals(entries: seq<Entry>): (r: seq<Bucket>)
    ensures DistinctKeys(r)
    ensures forall k :: HasKey(r, k) <==> Occupied(entries, Minute, k)
    ensures forall i :: 0 <= i < |r| ==> r[i].0 % SecondsPerMinute == 0
  {
    var r := Totals(entries, Minute);
    forall i | 0 <= i < |r| ensures r[i].0 % SecondsPerMinute == 0 {
      HasKeyAt(r, i);
      var j :| 0 <= j < |entries| && BucketOf(Minute, entries[j].timestamp) == r[i].0;
    }
    r
  }

  /** Strictly ascending by date. */
  predicate SortedByKey(b: seq<Bucket>) {
    forall i, j :: 0 <= i < j < |b| ==> b[i].0 < b[j].0
  }

  /** Inserts a bucket with a fresh key into a sorted list. */
  function Insert(b: seq<Bucket>, x: Bucket): (r: seq<Bucket>)
    requires SortedByKey(b) && DistinctKeys(b)
    requires !HasKey(b, x.0)
    ensures SortedByKey(r) && DistinctKeys(r)
    ensures |r| == |b| + 1
    ensures b == [] ==> r == [x]
    ensures b != [] ==> r[0] == (if x.0 < b[0].0 then x else b[0])
    ensures forall k :: HasKey(r, k) <==> HasKey(b, k) || k == x.0
    ensures forall k :: Lookup(r, k) == if k == x.0 then x.1 else Lookup(b, k)
    decreases |b|
  {
    if b == [] then [x]
    else if x.0 < b[0].0 then
      var r := [x] + b;
      assert r[1..] == b;
      forall k | HasKey(b, k) ensures x.0 < k {
        KeyAbove(b, k);
      }
      r
    else
      var rest := Insert(b[1..], x);
      var r := [b[0]] + rest;
      assert r[1..] == rest;
      forall k | HasKey(rest, k) ensures b[0].0 < k {
        if HasKey(b[1..], k) {
          KeyAbove(b, k);
        }
      }
      forall i, j | 0 <= i < j < |r| ensures r[i].0 < r[j].0 {
        if i == 0 {
          HasKeyAt(rest, j - 1);
        }
      }
      r
  }

  /** In a sorted list no key lies below the first one. */
  lemma {:induction false} KeyAbove(b: seq<Bucket>, k: int)
    requires SortedByKey(b)
    requires HasKey(b, k)
    ensures b[0].0 <= k
    decreases |b|
  {
    if b[0].0 != k {
      KeyAbove(b[1..], k);
      if |b| > 1 {
        assert b[1..][0] == b[1];
      }
    }
  }

  /** `sorted(..., key=lambda x: x[0])` on buckets with distinct keys. */
  function SortByKey(b: seq<Bucket>): (r: seq<Bucket>)
    requires DistinctKeys(b)
    ensures SortedByKey(r) && DistinctKeys(r)
    ensures forall k :: HasKey(r, k) <==> HasKey(b, k)
    ensures forall k :: Lookup(r, k) == Lookup(b, k)
    decreases |b|
  {
    if b == [] then []
    else Insert(SortByKey(b[1..]), b[0])
  }

  /** The date is between `today - daysBack` and `today`. */
  predicate InHistory(d: int, today: int, daysBack: int) {
    0 <= today - d <= daysBack
  }

  function KeepInHistory(b: seq<Bucket>, today: int, daysBack: int): (r: seq<Bucket>)
    requires DistinctKeys(b)
    ensures DistinctKeys(r)
    ensures forall k :: HasKey(r, k) <==> HasKey(b, k) && InHistory(k, today, daysBack)
    ensures forall k :: Lookup(r, k) == if InHistory(k, today, daysBack) then Lookup(b, k) else 0
    decreases |b|
  {
    if b == [] then []
    else
      var rest := KeepInHistory(b[1..], today, daysBack);
      if InHistory(b[0].0, today, daysBack) then
        var r := [b[0]] + rest;
        assert r[1..] == rest;
        r
      else
        LookupAbsent(rest, b[0].0);
        rest
  }

  /** `_historical_daily_totals`, with `today` the current day number:
      exactly the days on which the device has activity and whose age lies
      in `[0, daysBack]`, ascending by date, each once. */
  function HistoricalDailyTotals(db: Database.Db, device: string, today: int, daysBack: int): (r: seq<Bucket>)
    ensures SortedByKey(r)
    ensures forall d :: HasKey(r, d) <==>
              InHistory(d, today, daysBack) && Occupied(GetDeviceEntries(db, device), Day, d)
    ensures forall i :: 0 <= i < |r| ==> InHistory(r[i].0, today, daysBack)
  {
    var entries := GetDeviceEntries(db, device);
    var r := SortByKey(KeepInHistory(Totals(entries, Day), today, daysBack));
    forall i | 0 <= i < |r| ensures InHistory(r[i].0, today, daysBack) {
      HasKeyAt(r, i);
    }
    r
  }

  /** Each day of the history carries that day's step total. */
  lemma DailyTotalsAreDaySums(db: Database.Db, device: string, today: int, daysBack: int)
    ensures forall d :: InHistory(d, today, daysBack) ==>
              Lookup(HistoricalDailyTotals(db, device, today, daysBack), d) ==
                StepsIn(GetDeviceEntries(db, device), Day, d)
  {
    TotalsAreBucketSums(GetDeviceEntries(db, device), Day);
  }

  /** `estimate_met_from_pace`, over the reals. */
  function EstimateMetFromPace(pace: real): (r: real)
    ensures r >= 1.5
    ensures pace < 20.0 <==> r == 1.5
    ensures pace >= 100.0 ==> r >= 6.0
  {
    if pace < 20.0 then 1.5
    else if pace < 100.0 then 2.0 + (pace - 20.0) * (3.0 / (100.0 - 20.0))
    else 6.0 + (pace - 100.0) * 0.02
  }

  /** A faster pace never yields a lower MET: the curve is non-decreasing,
      including across its two breakpoints. */
  lemma MetIsMonotone(p: real, q: real)
    requires p <= q
    ensures EstimateMetFromPace(p) <= EstimateMetFromPace(q)
  {
  }
}
