/** The iOS session controller (`MotionManager`): the running flag, the
    step counters, the last alert and the two timers that pace uploads and
    alert polls. Every entry point is a pure transition; the wall clock
    `now` (seconds) is a parameter. */
module MotionManager {
  import opened Wrappers
  import StepDetector
  import ApiClient
  import Seqs

  const SendInterval: real := 5.0
  const AlertPollInterval: real := 5.0

  datatype Session = Session(
    isRunning: bool,
    totalSteps: int,
    unsentSteps: int,
    lastAlert: Option<string>,
    lastSendDate: real,
    lastAlertPollDate: real,
    detector: StepDetector.State)

  /** What one sample asks of the network: the upload issued (after the
      API client's own filtering) and whether an alert poll was started. */
  datatype Effects = Effects(upload: Option<int>, pollStarted: bool)

  /** The invariant every reachable session keeps. */
  ghost predicate Valid(s: Session) {
    && 0 <= s.unsentSteps <= s.totalSteps
    && StepDetector.Valid(StepDetector.Default, s.detector)
  }

  /** `init`: a fresh detector, and both timers read the clock at
      construction. */
  function Init(now: real): (s: Session)
    ensures Valid(s) && !s.isRunning
    ensures s.totalSteps == 0 && s.unsentSteps == 0 && s.lastAlert.None?
    ensures s.detector == StepDetector.Initial
    ensures s.lastSendDate == now && s.lastAlertPollDate == now
  {
    Session(false, 0, 0, None, now, now, StepDetector.Initial)
  }

  /** `start`: a no-op when already running or when the accelerometer is
      unavailable. Otherwise it starts a session with zeroed counters and
      fresh timers. The detector is kept as it was: its window and debounce
      time carry over from the previous session. */
  function Start(s: Session, now: real, accelerometerAvailable: bool): (r: Session)
    requires Valid(s)
    ensures Valid(r)
    ensures s.isRunning ==> r == s
    ensures !accelerometerAvailable ==> r == s
    ensures !s.isRunning && accelerometerAvailable ==>
              && r.isRunning
              && r.totalSteps == 0 && r.unsentSteps == 0
              && r.lastAlert.None?
              && r.lastSendDate == now && r.lastAlertPollDate == now
              && r.detector == s.detector
  {
    if s.isRunning then s
    else if !accelerometerAvailable then s
    else s.(isRunning := true, totalSteps := 0, unsentSteps := 0, lastAlert := None,
            lastSendDate := now, lastAlertPollDate := now)
  }

  /** `stop`: only clears the running flag; counters and the last alert
      stay visible. */
  function Stop(s: Session): (r: Session)
    requires Valid(s)
    ensures Valid(r)
    ensures !r.isRunning
    ensures r.totalSteps == s.totalSteps && r.unsentSteps == s.unsentSteps
    ensures r.lastAlert == s.lastAlert && r.detector == s.detector
    ensures r.lastSendDate == s.lastSendDate && r.lastAlertPollDate == s.lastAlertPollDate
  {
    if !s.isRunning then s else s.(isRunning := false)
  }

  /** The accelerometer closure, run for one update. `data` is None when the
      update carried no reading. The closure does not look at `isRunning`:
      an update already queued on the main queue when `stop` runs is
      processed like any other. */
  function OnSample(s: Session, data: Option<StepDetector.Sample>, now: real): (r: (Session, Effects))
    requires Valid(s)
    ensures Valid(r.0)
    ensures data.None? ==> r == (s, Effects(None, false))
    ensures r.0.isRunning == s.isRunning && r.0.lastAlert == s.lastAlert
    ensures data.Some? ==>
              r.0.detector == StepDetector.Update(StepDetector.Default, s.detector, data.value).state
    ensures data.Some? ==>
              var detected := StepDetector.Update(StepDetector.Default, s.detector, data.value).steps;
              var due := now - s.lastSendDate >= SendInterval;
              && r.0.totalSteps == s.totalSteps + detected
              && (due ==> r.0.unsentSteps == 0 && r.0.lastSendDate == now
                          && r.1.upload == Some(if s.unsentSteps + detected > 0 then s.unsentSteps + detected else 1))
              && (!due ==> r.0.unsentSteps == s.unsentSteps + detected && r.0.lastSendDate == s.lastSendDate
                           && r.1.upload.None?)
    ensures data.Some? ==>
              (r.1.pollStarted <==> now - s.lastAlertPollDate >= AlertPollInterval)
              && r.0.lastAlertPollDate == (if r.1.pollStarted then now else s.lastAlertPollDate)
  {
    if data.None? then (s, Effects(None, false))
    else
      var det := StepDetector.Update(StepDetector.Default, s.detector, data.value);
      var counted := if det.steps > 0
                     then s.(totalSteps := s.totalSteps + det.steps, unsentSteps := s.unsentSteps + det.steps)
                     else s;
      var counted := counted.(detector := det.state);
      var flushed :=
        if now - counted.lastSendDate >= SendInterval then
          var toSend := Seqs.Max(counted.unsentSteps, 1);
          (counted.(unsentSteps := 0, lastSendDate := now), ApiClient.SendSteps(toSend))
        else (counted, None);
      var polled := now - flushed.0.lastAlertPollDate >= AlertPollInterval;
      var final := if polled then flushed.0.(lastAlertPollDate := now) else flushed.0;
      (final, Effects(flushed.1, polled))
  }

  /** The alert-poll completion, run later on the main queue: only a non-nil
      alert overwrites `lastAlert`. It is not tied to a session, so a late
      completion still lands after `stop` or a restart. */
  function OnAlert(s: Session, resp: ApiClient.PollResponse): (r: Session)
    requires Valid(s)
    ensures Valid(r)
    ensures ApiClient.AlertOf(resp).Some? ==> r.lastAlert == ApiClient.AlertOf(resp)
    ensures ApiClient.AlertOf(resp).None? ==> r == s
    ensures r.(lastAlert := s.lastAlert) == s
  {
    match ApiClient.AlertOf(resp)
    case Some(a) => s.(lastAlert := Some(a))
    case None => s
  }

  datatype Event =
    | StartEvent(now: real, accelerometerAvailable: bool)
    | StopEvent
    | SampleEvent(data: Option<StepDetector.Sample>, now: real)
    | AlertEvent(resp: ApiClient.PollResponse)

  function Apply(s: Session, e: Event): (r: (Session, Effects))
    requires Valid(s)
    ensures Valid(r.0)
  {
    match e
    case StartEvent(now, ok) => (Start(s, now, ok), Effects(None, false))
    case StopEvent => (Stop(s), Effects(None, false))
    case SampleEvent(data, now) => OnSample(s, data, now)
    case AlertEvent(resp) => (OnAlert(s, resp), Effects(None, false))
  }

  /** Replays a sequence of events; returns the final session and every
      upload issued along the way. */
  function Replay(s: Session, es: seq<Event>): (r: (Session, seq<int>))
    requires Valid(s)
    ensures Valid(r.0)
    decreases |es|
  {
    if es == [] then (s, [])
    else
      var prev := Replay(s, es[..|es| - 1]);
      var step := Apply(prev.0, es[|es| - 1]);
      (step.0, prev.1 + (if step.1.upload.Some? then [step.1.upload.value] else []))
  }

  /** Every upload the app issues carries at least one step: the
      `max(unsentSteps, 1)` floor sends 1 even after an interval with no
      steps. */
  lemma {:induction false} UploadsArePositive(s: Session, es: seq<Event>)
    requires Valid(s)
    ensures forall i :: 0 <= i < |Replay(s, es).1| ==> Replay(s, es).1[i] >= 1
    decreases |es|
  {
    if es != [] {
      UploadsArePositive(s, es[..|es| - 1]);
    }
  }

  /** Steps are never lost locally: over a run of samples, what was uploaded plus what is still unsent covers every step
      detected since, plus what was unsent at the outset. The excess is the
      extra step sent on an interval with no steps. */
  lemma {:induction false} UploadsCoverDetectedSteps(s: Session, es: seq<Event>)
    requires Valid(s)
    requires forall i :: 0 <= i < |es| ==> es[i].SampleEvent?
    ensures var r := Replay(s, es);
              Seqs.Total(r.1) + r.0.unsentSteps >= r.0.totalSteps - s.totalSteps + s.unsentSteps
    decreases |es|
  {
    if es != [] {
      var n := |es| - 1;
      UploadsCoverDetectedSteps(s, es[..n]);
      var prev := Replay(s, es[..n]);
      var step := Apply(prev.0, es[n]);
      SampleCovers(prev.0, es[n]);
      if step.1.upload.Some? {
        Seqs.TotalSnoc(prev.1, step.1.upload.value);
      } else {
        assert prev.1 + [] == prev.1;
      }
    }
  }

  /** One sample: what it uploads plus what stays unsent covers what was
      unsent before plus what it detected. */
  lemma SampleCovers(s: Session, e: Event)
    requires Valid(s) && e.SampleEvent?
    ensures var r := Apply(s, e);
              (if r.1.upload.Some? then r.1.upload.value else 0) + r.0.unsentSteps >= r.0.totalSteps - s.totalSteps + s.unsentSteps
  {
  }
}
