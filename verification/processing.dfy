/** The Python step detector of the simulated phone client. It keeps the
    same window, threshold and debounce as the iOS detector but takes the
    wall-clock reading `now` (`time.time()` in the source) instead of a
    sensor timestamp. */
module Processing {
  import opened Wrappers
  import Window
  import StepDetector

  /** Construction computes the sample period `1.0 / sample_rate_hz` first,
      so a zero rate fails before the window is built; then
      `deque(maxlen=window_size)` refuses a negative size. */
  datatype NewResult = Constructed(config: StepDetector.Config) | ZeroRate | ValueError

  /** `update` either returns a step count or, with a zero-length window,
      raises ZeroDivisionError while averaging an empty deque. */
  datatype UpdateResult = Returned(state: StepDetector.State, steps: int) | ZeroDivisionError

  /** The defaults of the constructor: 20 samples, 0.8 m/s², 0.3 s. */
  const Default := StepDetector.Config(20, 0.8, 0.3)

  /** `StepDetector.__init__`: a zero sample rate raises ZeroDivisionError
      whatever the window size; otherwise a negative window size raises
      ValueError. The sample period is stored but never read again. */
  function New(sampleRateHz: real, windowSize: int, threshold: real, minStepInterval: real): (r: NewResult)
    ensures r.ZeroRate? <==> sampleRateHz == 0.0
    ensures r.ValueError? <==> sampleRateHz != 0.0 && windowSize < 0
    ensures r.Constructed? ==> r.config.windowSize == windowSize >= 0
    ensures r.Constructed? ==> r.config.threshold == threshold && r.config.minStepInterval == minStepInterval
  {
    if sampleRateHz == 0.0 then ZeroRate
    else if windowSize < 0 then ValueError
    else Constructed(StepDetector.Config(windowSize, threshold, minStepInterval))
  }

  /** `StepDetector.update`, with the clock reading `now` as a parameter. */
  function Update(c: StepDetector.Config, s: StepDetector.State, magnitude: real, now: real): (r: UpdateResult)
    requires c.windowSize >= 0
    requires StepDetector.Valid(c, s)
    ensures r.ZeroDivisionError? <==> c.windowSize == 0
    ensures r.Returned? ==> StepDetector.Valid(c, r.state)
    ensures r.Returned? ==> r.state.magnitudes == Window.Push(s.magnitudes, magnitude, c.windowSize)
    ensures r.Returned? ==> r.steps == 0 || r.steps == 1
    ensures r.Returned? && |r.state.magnitudes| < c.windowSize ==> r.steps == 0
    ensures r.Returned? && r.steps == 1 ==>
              && |r.state.magnitudes| > 0
              && magnitude - Window.Mean(r.state.magnitudes) > c.threshold
              && r.state.lastStepTime == Some(now)
    ensures r.Returned? && s.lastStepTime.None? && |r.state.magnitudes| == c.windowSize ==>
              (r.steps == 1 <==> magnitude - Window.Mean(r.state.magnitudes) > c.threshold)
    ensures r.Returned? && r.steps == 1 && s.lastStepTime.Some? ==>
              now - s.lastStepTime.value >= c.minStepInterval
    ensures r.Returned? && r.steps == 0 ==> r.state.lastStepTime == s.lastStepTime
  {
    var w := Window.Push(s.magnitudes, magnitude, c.windowSize);
    if |w| < c.windowSize then
      Returned(StepDetector.State(w, s.lastStepTime), 0)
    else if |w| == 0 then
      ZeroDivisionError
    else if magnitude - Window.Mean(w) > c.threshold
            && (s.lastStepTime.None? || now - s.lastStepTime.GetOr(0.0) >= c.minStepInterval) then
      Returned(StepDetector.State(w, Some(now)), 1)
    else
      Returned(StepDetector.State(w, s.lastStepTime), 0)
  }

  /** For every usable window size the Python and the Swift detectors make
      the same decision on the same magnitude and clock reading, so every
      property proved of the Swift detector's runs holds here too. */
  lemma PythonAgreesWithSwift(c: StepDetector.Config, s: StepDetector.State, magnitude: real, now: real)
    requires c.windowSize >= 1
    requires StepDetector.Valid(c, s)
    ensures Update(c, s, magnitude, now) ==
              var r := StepDetector.Update(c, s, StepDetector.Sample(magnitude, now));
              Returned(r.state, r.steps)
  {
  }
}
