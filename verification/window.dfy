/** The bounded FIFO of acceleration magnitudes that all three step
    detectors keep: append the newest value, evict the oldest on overflow. */
module Window {
  import Seqs

  /** Appends `x` and, if the window then holds more than `cap` values,
      drops the oldest one (Swift `append` + `removeFirst`, JavaScript
      `push` + `shift`, a Python `deque(maxlen=cap)`). A capacity of zero
      or less leaves the window empty. */
  function Push(w: seq<real>, x: real, cap: int): (r: seq<real>)
    requires |w| <= Cap(cap)
    ensures |w| < Cap(cap) ==> r == w + [x]
    ensures |w| == Cap(cap) ==> r == (w + [x])[1..]
    ensures |r| <= Cap(cap)
  {
    if |w| + 1 > cap then (w + [x])[1..] else w + [x]
  }

  /** The number of values a window of capacity `cap` can hold. */
  function Cap(cap: int): nat {
    if cap < 0 then 0 else cap
  }

  /** The last `n` values of `s`, oldest first. */
  function Recent(s: seq<real>, n: nat): (r: seq<real>)
    ensures |r| == Seqs.Min(|s|, n)
  {
    if |s| <= n then s else s[|s| - n..]
  }

  /** The window left by pushing every value of `xs`, in order, into `w`. */
  function Fill(w: seq<real>, xs: seq<real>, cap: int): (r: seq<real>)
    requires |w| <= Cap(cap)
    ensures |r| <= Cap(cap)
    decreases |xs|
  {
    if xs == [] then w
    else Push(Fill(w, xs[..|xs| - 1], cap), xs[|xs| - 1], cap)
  }

  /** Starting from an empty window, the window always holds exactly the
      most recent `cap` magnitudes (or all of them, if fewer were pushed),
      in insertion order. */
  lemma {:induction false} FillHoldsMostRecent(xs: seq<real>, cap: int)
    ensures Fill([], xs, cap) == Recent(xs, Cap(cap))
    decreases |xs|
  {
    if xs != [] {
      var prefix := xs[..|xs| - 1];
      FillHoldsMostRecent(prefix, cap);
      var w := Recent(prefix, Cap(cap));
      var r := Push(w, xs[|xs| - 1], cap);
      assert prefix + [xs[|xs| - 1]] == xs;
      assert r == (w + [xs[|xs| - 1]])[|w| + 1 - |r|..];
      if |prefix| <= Cap(cap) {
        assert w == prefix;
      } else {
        assert w == prefix[|prefix| - Cap(cap)..];
        assert w + [xs[|xs| - 1]] == xs[|prefix| - Cap(cap)..];
      }
    }
  }

  function Sum(w: seq<real>): real {
    if w == [] then 0.0 else Sum(w[..|w| - 1]) + w[|w| - 1]
  }

  /** The arithmetic mean of a non-empty window. */
  function Mean(w: seq<real>): real
    requires |w| > 0
  {
    Sum(w) / (|w| as real)
  }
}
