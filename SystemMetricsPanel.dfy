/** The sample history of src/components/analytics/SystemMetricsPanel.tsx: a
    one-second interval draws a metrics sample, shows it, and keeps the last
    30 samples for the sparkline. */
module Metrics {
  import opened Types

  /** The sparkline shows at most this many samples. */
  const HISTORY_SIZE: nat := 30

  /** The last `n` elements of `s` (all of them if there are fewer). */
  function LastN<T>(s: seq<T>, n: nat): (r: seq<T>)
    ensures |r| == if |s| < n then |s| else n
    ensures r == s[|s| - |r|..]
  {
    if |s| <= n then s else s[|s| - n..]
  }

  /** `[...prev.slice(-29), newMetrics]`: `slice(-29)` keeps the last 29
      samples, or all of them when there are fewer. */
  function PushSample(prev: seq<SystemMetrics>, m: SystemMetrics): (r: seq<SystemMetrics>)
    ensures r != [] && r[|r| - 1] == m
    ensures |r| == if |prev| < HISTORY_SIZE - 1 then |prev| + 1 else HISTORY_SIZE
    ensures r[..|r| - 1] == prev[|prev| - (|r| - 1)..]
  {
    var start := if |prev| < HISTORY_SIZE - 1 then 0 else |prev| - (HISTORY_SIZE - 1);
    prev[start..] + [m]
  }

  /** Pushing onto the window of all earlier samples gives the window of all
      samples: the history is always the most recent 30 samples, in order. */
  lemma PushSampleKeepsWindow(samples: seq<SystemMetrics>, m: SystemMetrics)
    ensures PushSample(LastN(samples, HISTORY_SIZE), m) == LastN(samples + [m], HISTORY_SIZE)
  {
    var h := LastN(samples, HISTORY_SIZE);
    var r := PushSample(h, m);
    var w := LastN(samples + [m], HISTORY_SIZE);
    assert |r| == |w|;
    assert w[..|w| - 1] == samples[|samples| - (|w| - 1)..];
    assert r[..|r| - 1] == h[|h| - (|r| - 1)..] == samples[|samples| - (|w| - 1)..];
    assert r == r[..|r| - 1] + [m];
    assert w == w[..|w| - 1] + [m];
  }

  class SystemMetricsPanel {
    /** The latest sample, `null` before the first tick. */
    var metrics: Option<SystemMetrics>
    var history: seq<SystemMetrics>
    /** Every sample drawn so far, oldest first. */
    ghost var samples: seq<SystemMetrics>

    ghost predicate Valid()
      reads this
    {
      && history == LastN(samples, HISTORY_SIZE)
      && (samples == [] <==> metrics.None?)
      && (samples != [] ==> metrics == Some(samples[|samples| - 1]))
    }

    constructor ()
      ensures Valid()
      ensures metrics.None? && history == [] && samples == []
    {
      metrics := None;
      history := [];
      samples := [];
    }

    /** One firing of the interval with the drawn sample `m`. */
    method Tick(m: SystemMetrics)
      requires Valid()
      modifies this
      ensures Valid()
      ensures samples == old(samples) + [m]
      ensures metrics == Some(m) && history == PushSample(old(history), m)
    {
      PushSampleKeepsWindow(samples, m);
      var next := PushSample(history, m);
      ghost var all := samples + [m];
      assert next == LastN(all, HISTORY_SIZE);
      assert all != [] && all[|all| - 1] == m;
      metrics := Some(m);
      history := next;
      samples := all;
      assert history == LastN(samples, HISTORY_SIZE);
      assert metrics == Some(samples[|samples| - 1]);
    }
  }
}
