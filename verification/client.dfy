/** One iteration of the simulated phone client's main loop (`client.py`):
    run the detector, add its output to `unsent_steps`, upload when the
    send interval has passed and poll for alerts when the poll interval has
    passed. Clock readings are parameters, and so are the three settings the
    client imports from its configuration module. */
module Client {
  import opened Wrappers
  import StepDetector
  import Processing
  import Seqs

  /** `SAMPLE_RATE_HZ`, `SEND_INTERVAL_SECONDS` and
      `ALERT_POLL_INTERVAL_SECONDS`, whose values live outside the client. */
  datatype Settings = Settings(sampleRateHz: real, sendIntervalSeconds: real, alertPollIntervalSeconds: real)

  datatype Loop = Loop(
    detector: StepDetector.State,
    unsentSteps: int,
    lastSendTime: real,
    lastAlertPollTime: real)

  /** How the alert request ended. `RequestFailed` is any
      `requests.RequestException`, including an HTTP error status. */
  datatype PollOutcome = RequestFailed | Body(alert: Option<string>)

  /** What one iteration did on the network: the step count of the upload
      it attempted, whether it polled, and the alert it announced. */
  datatype Effects = Effects(attempted: Option<int>, polled: bool, announced: Option<string>)

  ghost predicate Valid(l: Loop) {
    l.unsentSteps >= 0 && StepDetector.Valid(Processing.Default, l.detector)
  }

  /** Before the loop: the detector is built with its default window,
      threshold and debounce, which fails for a zero sample rate; then
      nothing is unsent and both timers read the clock. */
  function Init(settings: Settings, now: real): (r: Option<Loop>)
    ensures r.None? <==> settings.sampleRateHz == 0.0
    ensures r.Some? ==>
              && Valid(r.value)
              && r.value.detector == StepDetector.Initial
              && r.value.unsentSteps == 0
              && r.value.lastSendTime == now && r.value.lastAlertPollTime == now
  {
    match Processing.New(settings.sampleRateHz, 20, 0.8, 0.3)
    case Constructed(c) => Some(Loop(StepDetector.Initial, 0, now, now))
    case _ => None
  }

  /** The detector's output for this iteration. */
  function Detected(l: Loop, magnitude: real, detectorNow: real): (k: int)
    requires Valid(l)
    ensures k == 0 || k == 1
  {
    match Processing.Update(Processing.Default, l.detector, magnitude, detectorNow)
    case ZeroDivisionError => 0
    case Returned(_, steps) => steps
  }

  /** One pass of the loop body. `detectorNow` is the `time.time()` read
      inside `detector.update`, `now` the one read after it, and `poll` the
      result of the alert request if one is made. The detector output is
      added to the unsent count; when the send interval has passed, a
      non-empty count is attempted exactly once and then zeroed whatever the
      outcome, and the send timer moves to `now` even if nothing was sent;
      the poll timer moves to `now` whenever the poll interval has passed,
      even when the request failed. */
  function Iterate(settings: Settings, l: Loop, magnitude: real, detectorNow: real, now: real, poll: PollOutcome): (r: (Loop, Effects))
    requires Valid(l)
    ensures Valid(r.0)
    ensures Processing.Update(Processing.Default, l.detector, magnitude, detectorNow) == Processing.Returned(r.0.detector, Detected(l, magnitude, detectorNow))
    ensures var pending := l.unsentSteps + Detected(l, magnitude, detectorNow);
            var sendDue := now - l.lastSendTime >= settings.sendIntervalSeconds;
            && (sendDue && pending > 0 ==> r.1.attempted == Some(pending) && r.0.unsentSteps == 0)
            && (!(sendDue && pending > 0) ==> r.1.attempted.None? && r.0.unsentSteps == pending)
            && r.0.lastSendTime == (if sendDue then now else l.lastSendTime)
    ensures (r.1.polled <==> now - l.lastAlertPollTime >= settings.alertPollIntervalSeconds)
    ensures r.0.lastAlertPollTime == (if r.1.polled then now else l.lastAlertPollTime)
    ensures r.1.announced.Some? ==> r.1.polled && poll == Body(r.1.announced) && r.1.announced.value != ""
    ensures r.1.polled && poll.Body? && poll.alert.Some? && poll.alert.value != "" ==> r.1.announced == poll.alert
  {
    match Processing.Update(Processing.Default, l.detector, magnitude, detectorNow)
    case ZeroDivisionError => assert false; (l, Effects(None, false, None))
    case Returned(det, steps) =>
      var unsent := l.unsentSteps + steps;
      var sendDue := now - l.lastSendTime >= settings.sendIntervalSeconds;
      var attempted := if sendDue && unsent > 0 then Some(unsent) else None;
      var unsent := if sendDue && unsent > 0 then 0 else unsent;
      var lastSend := if sendDue then now else l.lastSendTime;
      var pollDue := now - l.lastAlertPollTime >= settings.alertPollIntervalSeconds;
      var announced := if pollDue && poll.Body? && poll.alert.Some? && poll.alert.value != "" then poll.alert else None;
      var lastPoll := if pollDue then now else l.lastAlertPollTime;
      (Loop(det, unsent, lastSend, lastPoll), Effects(attempted, pollDue, announced))
  }

  datatype Tick = Tick(magnitude: real, detectorNow: real, now: real, poll: PollOutcome)

  /** Runs the loop over a sequence of ticks; returns the final state,
      every step count it attempted to upload, and the number of steps the
      detector reported. */
  function Run(settings: Settings, l: Loop, ts: seq<Tick>): (r: (Loop, seq<int>, int))
    requires Valid(l)
    ensures Valid(r.0)
    decreases |ts|
  {
    if ts == [] then (l, [], 0)
    else
      var prev := Run(settings, l, ts[..|ts| - 1]);
      var t := ts[|ts| - 1];
      var step := Iterate(settings, prev.0, t.magnitude, t.detectorNow, t.now, t.poll);
      (step.0,
       prev.1 + (if step.1.attempted.Some? then [step.1.attempted.value] else []),
       prev.2 + Detected(prev.0, t.magnitude, t.detectorNow))
  }

  /** No upload ever carries 0 steps, and no step is invented or lost on
      the client side: what was attempted plus what is still unsent equals
      what was unsent at the start plus every step detected (the third
      component of `Run`). A failed upload still counts as attempted: the
      client zeroes its count regardless. */
  lemma {:induction false} AttemptsConserveSteps(settings: Settings, l: Loop, ts: seq<Tick>)
    requires Valid(l)
    ensures var r := Run(settings, l, ts);
              && (forall i :: 0 <= i < |r.1| ==> r.1[i] > 0)
              && Seqs.Total(r.1) + r.0.unsentSteps == l.unsentSteps + r.2
    decreases |ts|
  {
    if ts != [] {
      var n := |ts| - 1;
      AttemptsConserveSteps(settings, l, ts[..n]);
      var prev := Run(settings, l, ts[..n]);
      var t := ts[n];
      TickConserves(settings, prev.0, t);
      var step := Iterate(settings, prev.0, t.magnitude, t.detectorNow, t.now, t.poll);
      if step.1.attempted.Some? {
        Seqs.TotalSnoc(prev.1, step.1.attempted.value);
      } else {
        assert prev.1 + [] == prev.1;
      }
    }
  }

  /** One tick: the attempt, if any, is positive, and attempt plus what
      stays unsent is what was unsent plus what the detector reported. */
  lemma TickConserves(settings: Settings, l: Loop, t: Tick)
    requires Valid(l)
    ensures var step := Iterate(settings, l, t.magnitude, t.detectorNow, t.now, t.poll);
              && (step.1.attempted.Some? ==> step.1.attempted.value > 0)
              && (if step.1.attempted.Some? then step.1.attempted.value else 0) + step.0.unsentSteps
                 == l.unsentSteps + Detected(l, t.magnitude, t.detectorNow)
  {
  }
}
