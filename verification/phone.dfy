/** The browser phone client (`phone.js`): its own inline step detector,
    the sampling/idle state, the two counters, the session clock and the
    effects of the asynchronous upload and alert-poll completions. Times
    from `performance.now()` are real milliseconds; `Date` values are
    integer milliseconds; both are parameters. */
module Phone {
  import opened Wrappers
  import Window
  import Decimal

  const SampleIntervalMs: real := 40.0
  const WindowSize: int := 20
  const Threshold: real := 0.8
  const MinStepIntervalMs: real := 300.0

  /** What `resetSession` writes into the alert field. */
  const NoAlert: string := "–"

  datatype Page = Page(
    sampling: bool,
    magnitudes: seq<real>,
    lastSampleTime: real,
    lastStepTime: real,
    totalSteps: int,
    unsentSteps: int,
    sessionStart: Option<int>,
    lastAlert: string)

  ghost predicate Valid(p: Page) {
    0 <= p.unsentSteps <= p.totalSteps && |p.magnitudes| <= WindowSize
  }

  /** The script's initial state: note that the debounce time starts at 0,
      not "no step yet", so no step is counted in the first 300 ms after the
      page loads. */
  function Init(): (p: Page)
    ensures Valid(p) && !p.sampling
    ensures p.magnitudes == [] && p.totalSteps == 0 && p.unsentSteps == 0
    ensures p.lastSampleTime == 0.0 && p.lastStepTime == 0.0
    ensures p.sessionStart.None? && p.lastAlert == NoAlert
  {
    Page(false, [], 0.0, 0.0, 0, 0, None, NoAlert)
  }

  /** A counted step: a full window, the newest magnitude above the window
      mean by more than the threshold, and the debounce elapsed. */
  predicate IsStep(p: Page, w: seq<real>, magnitude: real, now: real) {
    && |w| == WindowSize
    && magnitude - Window.Mean(w) > Threshold
    && now - p.lastStepTime >= MinStepIntervalMs
  }

  /** `handleMotion`, for an event at `now` whose acceleration has the given
      magnitude (None when the event carries no acceleration). */
  function HandleMotion(p: Page, now: real, magnitude: Option<real>): (r: Page)
    requires Valid(p)
    ensures Valid(r)
    ensures !p.sampling || now - p.lastSampleTime < SampleIntervalMs ==> r == p
    ensures p.sampling && now - p.lastSampleTime >= SampleIntervalMs && magnitude.None? ==>
              r == p.(lastSampleTime := now)
    ensures p.sampling && now - p.lastSampleTime >= SampleIntervalMs && magnitude.Some? ==>
              var w := Window.Push(p.magnitudes, magnitude.value, WindowSize);
              && r.lastSampleTime == now
              && r.magnitudes == w
              && (IsStep(p, w, magnitude.value, now) ==>
                    r.totalSteps == p.totalSteps + 1 && r.unsentSteps == p.unsentSteps + 1
                    && r.lastStepTime == now)
              && (!IsStep(p, w, magnitude.value, now) ==>
                    r.totalSteps == p.totalSteps && r.unsentSteps == p.unsentSteps
                    && r.lastStepTime == p.lastStepTime)
    ensures r.sampling == p.sampling && r.sessionStart == p.sessionStart && r.lastAlert == p.lastAlert
  {
    if !p.sampling then p
    else if now - p.lastSampleTime < SampleIntervalMs then p
    else
      var p := p.(lastSampleTime := now);
      if magnitude.None? then p
      else
        var mag := magnitude.value;
        var w := Window.Push(p.magnitudes, mag, WindowSize);
        var p := p.(magnitudes := w);
        if |w| < WindowSize then p
        else if mag - Window.Mean(w) > Threshold && now - p.lastStepTime >= MinStepIntervalMs then
          p.(lastStepTime := now, totalSteps := p.totalSteps + 1, unsentSteps := p.unsentSteps + 1)
        else p
  }

  /** The send timer firing: `sendStepsToServer` up to its `await`. It
      returns the step count put on the wire, if any; the timer only exists
      while sampling. Nothing changes until the request completes. */
  function SendTick(p: Page): (r: Option<int>)
    ensures r.Some? <==> p.sampling && p.unsentSteps > 0
    ensures r.Some? ==> r.value == p.unsentSteps
  {
    if p.sampling && p.unsentSteps > 0 then Some(p.unsentSteps) else None
  }

  datatype SendOutcome = Ok | HttpError(status: int) | Exception

  /** The rest of `sendStepsToServer` once the request settles. Only an OK
      response clears `unsentSteps` — to zero, so steps counted while the
      request was in flight are dropped as well. Errors change nothing. */
  function SendCompleted(p: Page, outcome: SendOutcome): (r: Page)
    requires Valid(p)
    ensures Valid(r)
    ensures outcome.Ok? ==> r == p.(unsentSteps := 0)
    ensures !outcome.Ok? ==> r == p
  {
    match outcome
    case Ok => p.(unsentSteps := 0)
    case _ => p
  }

  datatype AlertOutcome = AlertHttpError(status: int) | AlertException | AlertBody(alert: Option<string>)

  /** `checkAlertFromServer` once the request settles: a non-empty alert
      replaces the shown alert; null, "", HTTP errors and exceptions leave
      the page as it was. */
  function AlertCompleted(p: Page, outcome: AlertOutcome): (r: Page)
    requires Valid(p)
    ensures Valid(r)
    ensures r.(lastAlert := p.lastAlert) == p
    ensures r.lastAlert != p.lastAlert ==>
              outcome.AlertBody? && outcome.alert == Some(r.lastAlert) && r.lastAlert != ""
    ensures outcome.AlertBody? && outcome.alert.Some? && outcome.alert.value != "" ==>
              r.lastAlert == outcome.alert.value
  {
    match outcome
    case AlertBody(Some(a)) => if a != "" then p.(lastAlert := a) else p
    case _ => p
  }

  /** `startSampling` at wall-clock time `nowDate`: a no-op while sampling;
      otherwise it zeroes both counters, empties the window and starts the
      session clock. The debounce time and last sample time carry over. */
  function StartSampling(p: Page, nowDate: int): (r: Page)
    requires Valid(p)
    ensures Valid(r)
    ensures p.sampling ==> r == p
    ensures !p.sampling ==>
              && r.sampling
              && r.totalSteps == 0 && r.unsentSteps == 0 && r.magnitudes == []
              && r.sessionStart == Some(nowDate)
              && r.lastStepTime == p.lastStepTime && r.lastSampleTime == p.lastSampleTime
              && r.lastAlert == p.lastAlert
  {
    if p.sampling then p
    else p.(sampling := true, totalSteps := 0, unsentSteps := 0, magnitudes := [], sessionStart := Some(nowDate))
  }

  /** `stopSampling`: clears the flag (and with it the timers); counters,
      window and session start are kept. */
  function StopSampling(p: Page): (r: Page)
    requires Valid(p)
    ensures Valid(r)
    ensures !r.sampling
    ensures r.(sampling := p.sampling) == p
  {
    if !p.sampling then p else p.(sampling := false)
  }

  /** `resetSession`: stops sampling, clears counters, window, alert and
      session start, and always issues the server reset request (the second
      component). */
  function ResetSession(p: Page): (r: (Page, bool))
    requires Valid(p)
    ensures Valid(r.0)
    ensures !r.0.sampling && r.0.totalSteps == 0 && r.0.unsentSteps == 0
    ensures r.0.magnitudes == [] && r.0.sessionStart.None? && r.0.lastAlert == NoAlert
    ensures r.0.lastStepTime == p.lastStepTime && r.0.lastSampleTime == p.lastSampleTime
    ensures r.1
  {
    var stopped := StopSampling(p);
    (stopped.(totalSteps := 0, unsentSteps := 0, magnitudes := [], lastAlert := NoAlert, sessionStart := None), true)
  }

  /** `Math.floor(a / b)` for a positive divisor: Dafny's division rounds
      toward negative infinity when the divisor is positive. */
  function FloorDiv(a: int, b: int): int
    requires b > 0
  {
    a / b
  }

  /** `Math.trunc(a / b)`: the quotient rounded toward zero. */
  function TruncDiv(a: int, b: int): int
    requires b > 0
  {
    if a >= 0 then a / b else -((-a) / b)
  }

  /** JavaScript's `%` (Number::remainder in ECMAScript): what is left of
      the dividend after the quotient truncated toward zero, so the result
      takes the sign of the dividend. */
  function JsRem(a: int, b: int): (r: int)
    requires b > 0
    ensures a == b * TruncDiv(a, b) + r
    ensures a >= 0 ==> 0 <= r < b
    ensures a < 0 ==> -b < r <= 0
  {
    if a >= 0 then a % b else -((-a) % b)
  }

  /** `updateSessionTime` at wall-clock time `nowDate`. */
  function SessionTime(sessionStart: Option<int>, nowDate: int): (r: string)
    ensures sessionStart.None? ==> r == "00:00"
    ensures sessionStart.Some? && nowDate >= sessionStart.value ==>
              ReadsAsElapsed(r, (nowDate - sessionStart.value) / 1000) && (|r| == 5 || r[0] != '0')
    ensures sessionStart.Some? && nowDate < sessionStart.value ==> |r| > 0 && r[0] == '-'
  {
    match sessionStart
    case None => "00:00"
    case Some(start) =>
      var diffSec := FloorDiv(nowDate - start, 1000);
      if nowDate >= start then
        ClockReadsBack(diffSec);
        Clock(diffSec)
      else
        ClockBeforeStart(diffSec);
        Clock(diffSec)
  }

  /** `mm:ss` with a colon, both fields numerals, the seconds field below
      60, and minutes × 60 + seconds equal to `elapsed`. */
  predicate ReadsAsElapsed(r: string, elapsed: int) {
    && |r| >= 5 && r[|r| - 3] == ':'
    && Decimal.IsDigits(r[..|r| - 3]) && Decimal.IsDigits(r[|r| - 2..])
    && Decimal.Value(r[|r| - 2..]) < 60
    && Decimal.Value(r[..|r| - 3]) * 60 + Decimal.Value(r[|r| - 2..]) == elapsed
  }

  /** The two padded fields of the session clock for `diffSec` seconds. */
  function Clock(diffSec: int): string {
    var minutes := Decimal.PadStart2(Decimal.IntToString(FloorDiv(diffSec, 60)));
    var seconds := Decimal.PadStart2(Decimal.IntToString(JsRem(diffSec, 60)));
    minutes + ":" + seconds
  }

  /** The two fields of the clock read back as the elapsed minutes and the
      seconds within the minute. */
  lemma ClockReadsBack(diffSec: int)
    requires diffSec >= 0
    ensures ReadsAsElapsed(Clock(diffSec), diffSec)
    ensures |Clock(diffSec)| == 5 || Clock(diffSec)[0] != '0'
  {
    var q, m := diffSec / 60, diffSec % 60;
    assert FloorDiv(diffSec, 60) == q && JsRem(diffSec, 60) == m;
    PaddedField(q);
    PaddedField(m);
    JoinedFieldsRead(Decimal.PadStart2(Decimal.IntToString(q)), Decimal.PadStart2(Decimal.IntToString(m)));
  }

  /** With the wall clock behind the session start the minutes field is
      negative, so the clock starts with a minus sign. */
  lemma ClockBeforeStart(diffSec: int)
    requires diffSec < 0
    ensures |Clock(diffSec)| > 0 && Clock(diffSec)[0] == '-'
  {
    var minutes := Decimal.PadStart2(Decimal.IntToString(FloorDiv(diffSec, 60)));
    assert FloorDiv(diffSec, 60) < 0;
    assert minutes[0] == '-';
    assert Clock(diffSec)[0] == minutes[0];
  }

  /** Joining a minutes numeral and a two-digit seconds numeral with a
      colon reads back as their combined count of seconds. */
  lemma JoinedFieldsRead(minutes: string, seconds: string)
    requires Decimal.IsDigits(minutes) && |minutes| >= 2
    requires Decimal.IsDigits(seconds) && |seconds| == 2 && Decimal.Value(seconds) < 60
    ensures ReadsAsElapsed(minutes + ":" + seconds, Decimal.Value(minutes) * 60 + Decimal.Value(seconds))
  {
    JoinedSlices(minutes, seconds);
  }

  /** The fields can be sliced back out of the joined clock. */
  lemma JoinedSlices(minutes: string, seconds: string)
    requires |seconds| == 2
    ensures var r := minutes + ":" + seconds;
              r[..|r| - 3] == minutes && r[|r| - 3] == ':' && r[|r| - 2..] == seconds
  {
    var r := minutes + ":" + seconds;
    assert r[..|r| - 3] == minutes;
    assert r[|r| - 2..] == seconds;
  }

  /** One clock field: a natural number rendered and padded to two places
      is a numeral of the same value, exactly two digits below 100. */
  lemma PaddedField(n: nat)
    ensures var s := Decimal.PadStart2(Decimal.IntToString(n));
              && Decimal.IsDigits(s) && |s| >= 2 && Decimal.Value(s) == n
              && (n < 100 ==> |s| == 2)
              && (|s| == 2 || s[0] != '0')
  {
    Decimal.ValueOfNatToString(n);
    Decimal.PadStart2KeepsValue(Decimal.NatToString(n));
    if 10 <= n < 100 {
      assert |Decimal.NatToString(n / 10)| == 1;
    }
  }

  datatype Event =
    | Motion(now: real, magnitude: Option<real>)
    | SendDone(outcome: SendOutcome)
    | AlertDone(alertOutcome: AlertOutcome)
    | Start(nowDate: int)
    | Stop
    | Reset

  function Apply(p: Page, e: Event): (r: Page)
    requires Valid(p)
    ensures Valid(r)
  {
    match e
    case Motion(now, m) => HandleMotion(p, now, m)
    case SendDone(o) => SendCompleted(p, o)
    case AlertDone(o) => AlertCompleted(p, o)
    case Start(d) => StartSampling(p, d)
    case Stop => StopSampling(p)
    case Reset => ResetSession(p).0
  }

  /** Whether the event counted a step. */
  predicate Counted(p: Page, e: Event)
    requires Valid(p)
  {
    e.Motion? && Apply(p, e).totalSteps == p.totalSteps + 1
  }

  /** Replays events from `p`; returns the final page and the `now` of
      every motion event that counted a step. */
  function Replay(p: Page, es: seq<Event>): (r: (Page, seq<real>))
    requires Valid(p)
    ensures Valid(r.0)
    decreases |es|
  {
    if es == [] then (p, [])
    else
      var prev := Replay(p, es[..|es| - 1]);
      var e := es[|es| - 1];
      (Apply(prev.0, e), prev.1 + (if Counted(prev.0, e) then [e.now] else []))
  }

  /** Counted steps are at least 300 ms apart on the `performance.now()`
      clock, across stops, restarts and resets (none of them resets the
      debounce time); and since that time starts at 0, the first step is
      never counted before 300 ms. */
  lemma {:induction false} CountedStepsAreSpaced(es: seq<Event>)
    ensures var ts := Replay(Init(), es).1;
              && (|ts| > 0 ==> ts[0] >= MinStepIntervalMs)
              && (forall i :: 0 < i < |ts| ==> ts[i] - ts[i - 1] >= MinStepIntervalMs)
              && Replay(Init(), es).0.lastStepTime == (if ts == [] then 0.0 else ts[|ts| - 1])
    decreases |es|
  {
    if es != [] {
      var n := |es| - 1;
      CountedStepsAreSpaced(es[..n]);
      var prev := Replay(Init(), es[..n]);
      CountedStep(prev.0, es[n]);
    }
  }

  /** One event: a counted step is at least 300 ms after the debounce time
      and becomes the new one; any other event leaves the debounce time. */
  lemma CountedStep(p: Page, e: Event)
    requires Valid(p)
    ensures Counted(p, e) ==> e.now - p.lastStepTime >= MinStepIntervalMs && Apply(p, e).lastStepTime == e.now
    ensures !Counted(p, e) ==> Apply(p, e).lastStepTime == p.lastStepTime
  {
  }
}
