/** The iOS step detector: a sliding window of acceleration magnitudes,
    a mean-subtracted threshold test and a debounce on the time of the
    last accepted step. The magnitude `sqrt(ax² + ay² + az²)` is taken as
    an input. */
module StepDetector {
  import opened Wrappers
  import Window

  datatype Config = Config(windowSize: int, threshold: real, minStepInterval: real)

  /** `lastStepTime` is None until the first step is accepted. */
  datatype State = State(magnitudes: seq<real>, lastStepTime: Option<real>)

  /** One sensor reading as the detector sees it: its magnitude and the
      sensor's timestamp in seconds. */
  datatype Sample = Sample(magnitude: real, timestamp: real)

  datatype Result = Result(state: State, steps: int)

  /** The defaults the app uses: 20 samples, 0.8 m/s², 0.3 s. */
  const Default := Config(20, 0.8, 0.3)

  const Initial := State([], None)

  ghost predicate Valid(c: Config, s: State) {
    |s.magnitudes| <= Window.Cap(c.windowSize)
  }

  /** The window is full. With `windowSize == 0` the window is always
      "full" but empty, and the mean is 0/0 = NaN, which no comparison
      accepts; with a negative size the window can never be full. */
  predicate Full(c: Config, w: seq<real>) {
    |w| == c.windowSize && |w| > 0
  }

  /** The newest magnitude stands out from the window mean by more than
      the threshold. */
  predicate AboveThreshold(c: Config, w: seq<real>, magnitude: real)
    requires |w| > 0
  {
    magnitude - Window.Mean(w) > c.threshold
  }

  /** No step accepted yet, or the last one is at least the minimum
      interval before `timestamp`. */
  predicate DebounceElapsed(c: Config, lastStepTime: Option<real>, timestamp: real) {
    lastStepTime.None? || timestamp - lastStepTime.value >= c.minStepInterval
  }

  /** `StepDetector.update`: returns the new state and the number of steps
      detected in this sample. */
  function Update(c: Config, s: State, x: Sample): (r: Result)
    requires Valid(c, s)
    ensures Valid(c, r.state)
    ensures r.state.magnitudes == Window.Push(s.magnitudes, x.magnitude, c.windowSize)
    ensures r.steps == 0 || r.steps == 1
    ensures !Full(c, r.state.magnitudes) ==> r.steps == 0
    ensures r.steps == 1 <==>
              && Full(c, r.state.magnitudes)
              && AboveThreshold(c, r.state.magnitudes, x.magnitude)
              && DebounceElapsed(c, s.lastStepTime, x.timestamp)
    ensures r.steps == 1 ==> r.state.lastStepTime == Some(x.timestamp)
    ensures r.steps == 0 ==> r.state.lastStepTime == s.lastStepTime
  {
    var w := Window.Push(s.magnitudes, x.magnitude, c.windowSize);
    if |w| != c.windowSize then
      Result(State(w, s.lastStepTime), 0)
    else if |w| == 0 then
      // 0/0 is NaN in Double and `NaN > threshold` is false
      Result(State(w, s.lastStepTime), 0)
    else if x.magnitude - Window.Mean(w) > c.threshold
            && (s.lastStepTime.None? || x.timestamp - s.lastStepTime.GetOr(0.0) >= c.minStepInterval) then
      Result(State(w, Some(x.timestamp)), 1)
    else
      Result(State(w, s.lastStepTime), 0)
  }

  /** Feeds the samples in order; returns the final state and the output of
      each call. */
  function Run(c: Config, s: State, xs: seq<Sample>): (r: (State, seq<int>))
    requires Valid(c, s)
    ensures Valid(c, r.0)
    ensures |r.1| == |xs|
    decreases |xs|
  {
    if xs == [] then (s, [])
    else
      var prev := Run(c, s, xs[..|xs| - 1]);
      var step := Update(c, prev.0, xs[|xs| - 1]);
      (step.state, prev.1 + [step.steps])
  }

  function Magnitudes(xs: seq<Sample>): (r: seq<real>)
    ensures |r| == |xs|
    ensures forall i :: 0 <= i < |xs| ==> r[i] == xs[i].magnitude
  {
    if xs == [] then [] else Magnitudes(xs[..|xs| - 1]) + [xs[|xs| - 1].magnitude]
  }

  /** From a fresh detector, the window after any sequence of samples holds
      exactly the most recent `windowSize` magnitudes, oldest first. */
  lemma {:induction false} RunWindowIsMostRecent(c: Config, xs: seq<Sample>)
    ensures Run(c, Initial, xs).0.magnitudes == Window.Recent(Magnitudes(xs), Window.Cap(c.windowSize))
    decreases |xs|
  {
    RunWindowIsFill(c, xs);
    Window.FillHoldsMostRecent(Magnitudes(xs), c.windowSize);
  }

  lemma {:induction false} RunWindowIsFill(c: Config, xs: seq<Sample>)
    ensures Run(c, Initial, xs).0.magnitudes == Window.Fill([], Magnitudes(xs), c.windowSize)
    decreases |xs|
  {
    if xs != [] {
      RunWindowIsFill(c, xs[..|xs| - 1]);
      assert Magnitudes(xs)[..|xs| - 1] == Magnitudes(xs[..|xs| - 1]);
    }
  }

  /** Every output is 0 or 1: at most one step per sample. */
  lemma {:induction false} RunOutputsAreBits(c: Config, s: State, xs: seq<Sample>)
    requires Valid(c, s)
    ensures forall i :: 0 <= i < |xs| ==> Run(c, s, xs).1[i] in {0, 1}
    decreases |xs|
  {
    if xs != [] {
      RunOutputsAreBits(c, s, xs[..|xs| - 1]);
    }
  }

  /** Warm-up: from a fresh detector, the first `windowSize - 1` samples
      never produce a step. */
  lemma {:induction false} WarmUpIsSilent(c: Config, xs: seq<Sample>)
    requires |xs| < c.windowSize
    ensures forall i :: 0 <= i < |xs| ==> Run(c, Initial, xs).1[i] == 0
    decreases |xs|
  {
    if xs != [] {
      WarmUpIsSilent(c, xs[..|xs| - 1]);
      RunWindowIsMostRecent(c, xs);
    }
  }

  /** The debounce state always remembers the timestamp of the most recent
      accepted step, or its starting value if no step was accepted. */
  lemma {:induction false} LastStepTimeTracksLastStep(c: Config, s: State, xs: seq<Sample>)
    requires Valid(c, s)
    ensures (forall k :: 0 <= k < |xs| ==> Run(c, s, xs).1[k] == 0) ==>
              Run(c, s, xs).0.lastStepTime == s.lastStepTime
    ensures forall i :: 0 <= i < |xs| && Run(c, s, xs).1[i] == 1 &&
                        (forall k :: i < k < |xs| ==> Run(c, s, xs).1[k] == 0) ==>
              Run(c, s, xs).0.lastStepTime == Some(xs[i].timestamp)
    decreases |xs|
  {
    if xs != [] {
      var n := |xs| - 1;
      LastStepTimeTracksLastStep(c, s, xs[..n]);
      var prev := Run(c, s, xs[..n]);
      var out := Run(c, s, xs).1;
      assert forall k :: 0 <= k < n ==> out[k] == prev.1[k];
      if forall k :: 0 <= k < |xs| ==> out[k] == 0 {
        assert out[n] == 0;
        assert forall k :: 0 <= k < n ==> prev.1[k] == 0;
      }
      forall i | 0 <= i < |xs| && out[i] == 1 && (forall k :: i < k < |xs| ==> out[k] == 0)
        ensures Run(c, s, xs).0.lastStepTime == Some(xs[i].timestamp)
      {
        if i < n {
          assert out[n] == 0;
          assert xs[..n][i] == xs[i];
          assert forall k :: i < k < n ==> prev.1[k] == 0;
        }
      }
    }
  }

  /** Debounce: two consecutive accepted steps are at least
      `minStepInterval` apart on the sensor clock. */
  lemma {:induction false} ConsecutiveStepsAreSpaced(c: Config, s: State, xs: seq<Sample>, i: nat, j: nat)
    requires Valid(c, s)
    requires i < j < |xs|
    requires Run(c, s, xs).1[i] == 1 && Run(c, s, xs).1[j] == 1
    requires forall k :: i < k < j ==> Run(c, s, xs).1[k] == 0
    ensures xs[j].timestamp - xs[i].timestamp >= c.minStepInterval
  {
    RunAt(c, s, xs, j);
    PrefixRun(c, s, xs, j);
    var pre := xs[..j];
    var prev := Run(c, s, pre);
    assert prev.1[i] == 1;
    assert forall k :: i < k < j ==> prev.1[k] == 0;
    LastStepTimeTracksLastStep(c, s, pre);
    assert pre[i] == xs[i];
  }

  /** The output for sample `j` is one update of the state the first `j`
      samples left. */
  lemma {:induction false} RunAt(c: Config, s: State, xs: seq<Sample>, j: nat)
    requires Valid(c, s)
    requires j < |xs|
    ensures Run(c, s, xs).1[j] == Update(c, Run(c, s, xs[..j]).0, xs[j]).steps
  {
    var upto := xs[..j + 1];
    assert upto[..|upto| - 1] == xs[..j];
    calc {
      Run(c, s, xs).1[j];
      { PrefixRun(c, s, xs, j + 1); }
      Run(c, s, upto).1[|upto| - 1];
      Update(c, Run(c, s, upto[..|upto| - 1]).0, upto[|upto| - 1]).steps;
      Update(c, Run(c, s, xs[..j]).0, xs[j]).steps;
    }
  }

  /** Running a prefix gives a prefix of the outputs. */
  lemma {:induction false} PrefixRun(c: Config, s: State, xs: seq<Sample>, n: nat)
    requires Valid(c, s)
    requires n <= |xs|
    ensures Run(c, s, xs[..n]).1 == Run(c, s, xs).1[..n]
    decreases |xs|
  {
    if n < |xs| {
      PrefixRun(c, s, xs[..|xs| - 1], n);
      assert xs[..|xs| - 1][..n] == xs[..n];
    } else {
      assert xs[..n] == xs;
    }
  }
}
