/**
 * `Statistics.StatisticsCollector<T>`: a window of the most recent samples
 * (at most `Capacity` of them, the oldest evicted first), lifetime totals
 * that survive eviction, and window aggregates recomputed after every
 * recorded sample.
 *
 * Sample values, timestamps, elapsed times and rates are integers in one
 * time unit; the elapsed time and the rate of a sample come from the clock
 * and a floating-point division, so the caller supplies them.
 */
module Statistics {
  import opened Wrappers
  import opened Aggregates
  import opened MemoryQueues

  /** `DefaultMaxDataPoints` */
  const DefaultCapacity: nat := 1000

  /** `Sample<T>`: when it started, how long it took, its value and its rate. */
  datatype Sample = Sample(startTimestamp: int, elapsed: nat, value: int, rate: int)

  /** The four numeric columns of a sample that the collector aggregates. */
  datatype Column = Elapsed | Value | Rate | Timestamp

  function Get(s: Sample, c: Column): int
  {
    match c
    case Elapsed => s.elapsed
    case Value => s.value
    case Rate => s.rate
    case Timestamp => s.startTimestamp
  }

  /** One column of a run of samples, in order. */
  function ColumnOf(w: seq<Sample>, c: Column): (r: seq<int>)
    ensures |r| == |w|
  {
    if |w| == 0 then [] else ColumnOf(w[..|w| - 1], c) + [Get(w[|w| - 1], c)]
  }

  lemma {:induction false} ColumnOfAt(w: seq<Sample>, c: Column, i: nat)
    requires i < |w|
    ensures ColumnOf(w, c)[i] == Get(w[i], c)
    decreases |w|
  {
    if i < |w| - 1 {
      ColumnOfAt(w[..|w| - 1], c, i);
    }
  }

  lemma ColumnOfPrefix(w: seq<Sample>, c: Column, i: nat)
    requires i < |w|
    ensures ColumnOf(w[..i + 1], c) == ColumnOf(w[..i], c) + [Get(w[i], c)]
  {
    assert w[..i + 1][..i] == w[..i];
  }

  /** A quotient the source computes in floating point, kept as its two operands. */
  datatype Ratio = Ratio(numerator: int, denominator: int)

  /**
   * The elapsed time of the last sample whose start timestamp is strictly
   * later than every earlier one, or none when no sample after the first
   * has a later start.
   */
  function LastRaise(w: seq<Sample>): Option<nat>
    requires |w| > 0
  {
    if |w| == 1 then None
    else
      var prev := w[..|w| - 1];
      if w[|w| - 1].startTimestamp > MaxOf(ColumnOf(prev, Timestamp)) then Some(w[|w| - 1].elapsed)
      else LastRaise(prev)
  }

  /**
   * `CurrentNaturalElapsed`: the span from the earliest to the latest start
   * timestamp plus the elapsed time of the sample that last raised the
   * latest start.
   */
  function NaturalElapsed(w: seq<Sample>): Option<int>
  {
    if |w| == 0 then None
    else match LastRaise(w)
      case None => None
      case Some(e) =>
        Some(MaxOf(ColumnOf(w, Timestamp)) - MinOf(ColumnOf(w, Timestamp)) + e)
  }

  /**
   * The natural elapsed time is missing exactly when the window is empty or
   * no sample starts later than the first one; a one-sample window is such a
   * case.
   */
  lemma {:induction false} LastRaiseNone(w: seq<Sample>)
    requires |w| > 0
    ensures LastRaise(w).None? <==>
      forall j :: 0 < j < |w| ==> w[j].startTimestamp <= w[0].startTimestamp
    decreases |w|
  {
    if |w| > 1 {
      var prev := w[..|w| - 1];
      var ts := ColumnOf(prev, Timestamp);
      LastRaiseNone(prev);
      MaxOfIsGreatest(ts);
      ColumnOfAt(prev, Timestamp, 0);
      if LastRaise(w).None? {
        forall j | 0 < j < |w|
          ensures w[j].startTimestamp <= w[0].startTimestamp
        {
          if j < |w| - 1 {
            assert prev[j] == w[j];
          } else {
            var k :| 0 <= k < |ts| && ts[k] == MaxOf(ts);
            ColumnOfAt(prev, Timestamp, k);
            if k > 0 {
              assert prev[k] == w[k];
            }
          }
        }
      } else if w[|w| - 1].startTimestamp > MaxOf(ts) {
        assert ts[0] == w[0].startTimestamp;
        assert w[|w| - 1].startTimestamp > w[0].startTimestamp;
      } else {
        var j :| 0 < j < |prev| && prev[j].startTimestamp > prev[0].startTimestamp;
        assert w[j].startTimestamp > w[0].startTimestamp;
      }
    }
  }

  lemma OneSampleHasNoNaturalElapsed(s: Sample)
    ensures NaturalElapsed([s]) == None
  {
  }

  /**
   * A natural elapsed time, when there is one, is positive: some sample
   * starts strictly after the first, so the timestamps span a positive range.
   * The natural rate therefore never divides by zero.
   */
  lemma NaturalElapsedPositive(w: seq<Sample>)
    ensures NaturalElapsed(w).Some? ==> NaturalElapsed(w).value > 0
  {
    if NaturalElapsed(w).None? {
      return;
    }
    var ts := ColumnOf(w, Timestamp);
    LastRaiseNone(w);
    var j :| 0 < j < |w| && w[j].startTimestamp > w[0].startTimestamp;
    MaxOfIsGreatest(ts);
    MinOfIsLeast(ts);
    ColumnOfAt(w, Timestamp, 0);
    ColumnOfAt(w, Timestamp, j);
  }

  /** The window aggregates the collector keeps, in the order the source declares them. */
  datatype Stats = Stats(
    sampleCount: nat,
    elapsedSum: int, elapsedMin: Option<int>, elapsedMax: Option<int>,
    samplesSum: int, samplesMin: Option<int>, samplesMax: Option<int>,
    ratesSum: int, ratesMin: Option<int>, ratesMax: Option<int>,
    timestampMin: Option<int>, timestampMax: Option<int>,
    naturalElapsed: Option<int>)

  function LeastOf(s: seq<int>): Option<int>
  {
    if |s| == 0 then None else Some(MinOf(s))
  }

  function GreatestOf(s: seq<int>): Option<int>
  {
    if |s| == 0 then None else Some(MaxOf(s))
  }

  /** What `RecomputeStatistics` leaves behind for the window `w`. */
  function StatsOf(w: seq<Sample>): Stats
  {
    Stats(|w|,
      Sum(ColumnOf(w, Elapsed)), LeastOf(ColumnOf(w, Elapsed)), GreatestOf(ColumnOf(w, Elapsed)),
      Sum(ColumnOf(w, Value)), LeastOf(ColumnOf(w, Value)), GreatestOf(ColumnOf(w, Value)),
      Sum(ColumnOf(w, Rate)), LeastOf(ColumnOf(w, Rate)), GreatestOf(ColumnOf(w, Rate)),
      LeastOf(ColumnOf(w, Timestamp)), GreatestOf(ColumnOf(w, Timestamp)),
      NaturalElapsed(w))
  }

  /**
   * The window after a sample is accepted: the oldest sample goes first
   * when the window is full.
   */
  function Admit<S>(w: seq<S>, capacity: nat, s: S): seq<S>
    requires capacity > 0
  {
    if |w| >= capacity then w[1..] + [s] else w + [s]
  }

  /** The newest `capacity` samples of `all` (all of them when there are fewer). */
  function Recent<S>(all: seq<S>, capacity: nat): (r: seq<S>)
    ensures |r| <= capacity
  {
    if |all| <= capacity then all else all[|all| - capacity..]
  }

  /**
   * Admitting a sample to the window of the newest samples gives the window
   * of the newest samples once it is added: the window never exceeds the
   * capacity and always keeps the most recent samples, in order.
   */
  lemma AdmitKeepsRecent<S>(all: seq<S>, capacity: nat, s: S)
    requires capacity > 0
    ensures Admit(Recent(all, capacity), capacity, s) == Recent(all + [s], capacity)
  {
    var w := Recent(all, capacity);
    if |all| >= capacity {
      assert w[1..] + [s] == (all + [s])[|all + [s]| - capacity..];
    }
  }

  /** The running minimum, maximum and sum the loop keeps for one column. */
  ghost predicate Running(least: Option<int>, greatest: Option<int>, sum: int, col: seq<int>)
  {
    least == LeastOf(col) && greatest == GreatestOf(col) && sum == Sum(col)
  }

  /** `x ??= v` followed by `if (v < x) x = v` */
  function LowerTo(least: Option<int>, v: int): Option<int>
  {
    var l := if least.None? then v else least.value;
    if v < l then Some(v) else Some(l)
  }

  /** `x ??= v` followed by `if (v > x) x = v` */
  function RaiseTo(greatest: Option<int>, v: int): Option<int>
  {
    var g := if greatest.None? then v else greatest.value;
    if v > g then Some(v) else Some(g)
  }

  lemma RunningStep(least: Option<int>, greatest: Option<int>, sum: int, col: seq<int>, v: int)
    requires Running(least, greatest, sum, col)
    ensures Running(LowerTo(least, v), RaiseTo(greatest, v), sum + v, col + [v])
  {
    SumStep(col, v);
    if |col| > 0 {
      MinOfStep(col, v);
      MaxOfStep(col, v);
    }
  }

  /**
   * The aggregates once the samples `p` of a window of `count` have been
   * scanned; the natural elapsed time is only set after the scan.
   */
  function Scanned(count: nat, p: seq<Sample>): Stats
  {
    Stats(count,
      Sum(ColumnOf(p, Elapsed)), LeastOf(ColumnOf(p, Elapsed)), GreatestOf(ColumnOf(p, Elapsed)),
      Sum(ColumnOf(p, Value)), LeastOf(ColumnOf(p, Value)), GreatestOf(ColumnOf(p, Value)),
      Sum(ColumnOf(p, Rate)), LeastOf(ColumnOf(p, Rate)), GreatestOf(ColumnOf(p, Rate)),
      LeastOf(ColumnOf(p, Timestamp)), GreatestOf(ColumnOf(p, Timestamp)),
      None)
  }

  /** One pass of the scan's loop body over `s`. */
  function Step(acc: Stats, s: Sample): Stats
  {
    acc.(
      elapsedMin := LowerTo(acc.elapsedMin, s.elapsed), elapsedMax := RaiseTo(acc.elapsedMax, s.elapsed),
      samplesMin := LowerTo(acc.samplesMin, s.value), samplesMax := RaiseTo(acc.samplesMax, s.value),
      ratesMin := LowerTo(acc.ratesMin, s.rate), ratesMax := RaiseTo(acc.ratesMax, s.rate),
      timestampMin := LowerTo(acc.timestampMin, s.startTimestamp),
      timestampMax := RaiseTo(acc.timestampMax, s.startTimestamp),
      elapsedSum := acc.elapsedSum + s.elapsed,
      samplesSum := acc.samplesSum + s.value,
      ratesSum := acc.ratesSum + s.rate)
  }

  /**
   * The loop body extends the scanned prefix by one sample: every minimum,
   * maximum and sum it updates in place is the one of the longer prefix, and
   * the "last raise" moves exactly when the sample starts after every earlier one.
   */
  lemma ScanStep(w: seq<Sample>, i: nat)
    requires i < |w|
    ensures Step(Scanned(|w|, w[..i]), w[i]) == Scanned(|w|, w[..i + 1])
    ensures i > 0 ==>
      LastRaise(w[..i + 1]) == if w[i].startTimestamp > MaxOf(ColumnOf(w[..i], Timestamp))
                               then Some(w[i].elapsed) else LastRaise(w[..i])
  {
    ColumnOfPrefix(w, Elapsed, i);
    ColumnOfPrefix(w, Value, i);
    ColumnOfPrefix(w, Rate, i);
    ColumnOfPrefix(w, Timestamp, i);
    RunningStep(LeastOf(ColumnOf(w[..i], Elapsed)), GreatestOf(ColumnOf(w[..i], Elapsed)), Sum(ColumnOf(w[..i], Elapsed)), ColumnOf(w[..i], Elapsed), w[i].elapsed);
    RunningStep(LeastOf(ColumnOf(w[..i], Value)), GreatestOf(ColumnOf(w[..i], Value)), Sum(ColumnOf(w[..i], Value)), ColumnOf(w[..i], Value), w[i].value);
    RunningStep(LeastOf(ColumnOf(w[..i], Rate)), GreatestOf(ColumnOf(w[..i], Rate)), Sum(ColumnOf(w[..i], Rate)), ColumnOf(w[..i], Rate), w[i].rate);
    RunningStep(LeastOf(ColumnOf(w[..i], Timestamp)), GreatestOf(ColumnOf(w[..i], Timestamp)), Sum(ColumnOf(w[..i], Timestamp)), ColumnOf(w[..i], Timestamp), w[i].startTimestamp);
    assert w[..i + 1][..i] == w[..i];
  }

  /** The loop's running "last raise" value, with -1 for none as in the source. */
  function LastRaiseOrMinusOne(w: seq<Sample>): int
    requires |w| > 0
  {
    match LastRaise(w)
    case None => -1
    case Some(e) => e
  }

  class StatisticsCollector {
    const IgnoreZeroes: bool
    /** `Capacity` */
    const capacity: nat
    const SamplesQueue: MemoryQueue<Sample>

    var lifetimeTimestamp: Option<int>
    var lifetimeSamplesSum: int
    var lifetimeSampleCount: int

    /**
     * The `sCurrent…` aggregates of the window, kept together as one record;
     * `RecomputeStatistics` replaces them as a whole.
     */
    var current: Stats

    /** Every sample ever accepted, oldest first. */
    ghost var History: seq<Sample>
    ghost var Repr: set<object>

    /** The samples currently in the window. */
    ghost function Window(): seq<Sample>
      reads this, SamplesQueue
    {
      SamplesQueue.Contents
    }

    /** The sample queue is in working order and owned by this collector alone. */
    ghost predicate QueueReady()
      reads this, Repr
    {
      && this in Repr && SamplesQueue in Repr
      && SamplesQueue.Repr <= Repr && this !in SamplesQueue.Repr
      && Repr == {this} + SamplesQueue.Repr
      && SamplesQueue.Valid() && !SamplesQueue.disposed
    }

    /** Everything but the window aggregates. */
    ghost predicate Structure()
      reads this, Repr
    {
      && QueueReady()
      && capacity > 0
      && Window() == Recent(History, capacity)
      && lifetimeSampleCount == |History|
      && lifetimeSamplesSum == Sum(ColumnOf(History, Value))
    }

    ghost predicate Valid()
      reads this, Repr
      ensures Valid() ==> this in Repr
    {
      Structure() && current == StatsOf(Window())
    }

    /**
     * `new StatisticsCollector<T>(ignoreZeroes, capacity)` for a positive
     * capacity; `New` models the rejection of other capacities.
     */
    constructor (ignoreZeroes: bool, cap: int)
      requires cap > 0
      ensures Valid() && fresh(Repr)
      ensures IgnoreZeroes == ignoreZeroes && capacity == cap
      ensures Window() == [] && History == [] && lifetimeTimestamp == None
    {
      IgnoreZeroes := ignoreZeroes;
      capacity := cap;
      SamplesQueue := new MemoryQueue<Sample>(cap);
      lifetimeTimestamp := None;
      lifetimeSamplesSum, lifetimeSampleCount := 0, 0;
      current := Stats(0, 0, None, None, 0, None, None, 0, None, None, None, None, None);
      History := [];
      new;
      Repr := {this} + SamplesQueue.Repr;
    }

    /** `Capacity` */
    function Capacity(): nat
      reads this
    {
      capacity
    }

    /** `LifetimeElapsed` at clock reading `now`: zero before the first sample began. */
    function LifetimeElapsed(now: int): int
      reads this
    {
      if lifetimeTimestamp.None? then 0 else now - lifetimeTimestamp.value
    }

    /** `LifetimeSamplesSum`: the values of every accepted sample, evicted or not. */
    function LifetimeSamplesSum(): (r: int)
      requires Valid()
      reads Repr
      ensures r == Sum(ColumnOf(History, Value))
    {
      lifetimeSamplesSum
    }

    /** `LifetimeSampleCount`: how many samples were ever accepted. */
    function LifetimeSampleCount(): (r: int)
      requires Valid()
      reads Repr
      ensures r == |History| && r >= |Window()|
    {
      lifetimeSampleCount
    }

    /** `CurrentSampleCount` */
    function CurrentSampleCount(): (r: nat)
      requires Valid()
      reads Repr
      ensures r == |Window()| && r <= capacity
    {
      current.sampleCount
    }

    /** `CurrentElapsedSum` */
    function CurrentElapsedSum(): (r: Option<int>)
      requires Valid()
      reads Repr
      ensures r == if |Window()| == 0 then None else Some(Sum(ColumnOf(Window(), Elapsed)))
    {
      if current.sampleCount <= 0 then None else Some(current.elapsedSum)
    }

    /** `CurrentElapsedAverage`, as the sum and the count it divides. */
    function CurrentElapsedAverage(): (r: Option<Ratio>)
      requires Valid()
      reads Repr
      ensures r == if |Window()| == 0 then None
                   else Some(Ratio(Sum(ColumnOf(Window(), Elapsed)), |Window()|))
    {
      if current.sampleCount <= 0 then None else Some(Ratio(current.elapsedSum, current.sampleCount))
    }

    /** `CurrentElapsedMin` */
    function CurrentElapsedMin(): (r: Option<int>)
      requires Valid()
      reads Repr
      ensures r == LeastOf(ColumnOf(Window(), Elapsed))
    {
      if current.sampleCount <= 0 || current.elapsedMin.None? then None else current.elapsedMin
    }

    /** `CurrentElapsedMax` */
    function CurrentElapsedMax(): (r: Option<int>)
      requires Valid()
      reads Repr
      ensures r == GreatestOf(ColumnOf(Window(), Elapsed))
    {
      if current.sampleCount <= 0 || current.elapsedMax.None? then None else current.elapsedMax
    }

    /** `CurrentSamplesSum` */
    function CurrentSamplesSum(): (r: Option<int>)
      requires Valid()
      reads Repr
      ensures r == if |Window()| == 0 then None else Some(Sum(ColumnOf(Window(), Value)))
    {
      if current.sampleCount <= 0 then None else Some(current.samplesSum)
    }

    /** `CurrentSamplesAverage`, as the sum and the count it divides. */
    function CurrentSamplesAverage(): (r: Option<Ratio>)
      requires Valid()
      reads Repr
      ensures r == if |Window()| == 0 then None
                   else Some(Ratio(Sum(ColumnOf(Window(), Value)), |Window()|))
    {
      if current.sampleCount <= 0 then None else Some(Ratio(current.samplesSum, current.sampleCount))
    }

    /** `CurrentSamplesMin` */
    function CurrentSamplesMin(): (r: Option<int>)
      requires Valid()
      reads Repr
      ensures r == LeastOf(ColumnOf(Window(), Value))
    {
      current.samplesMin
    }

    /** `CurrentSamplesMax` */
    function CurrentSamplesMax(): (r: Option<int>)
      requires Valid()
      reads Repr
      ensures r == GreatestOf(ColumnOf(Window(), Value))
    {
      current.samplesMax
    }

    /** `CurrentRatesSum` */
    function CurrentRatesSum(): (r: Option<int>)
      requires Valid()
      reads Repr
      ensures r == if |Window()| == 0 then None else Some(Sum(ColumnOf(Window(), Rate)))
    {
      if current.sampleCount <= 0 then None else Some(current.ratesSum)
    }

    /** `CurrentRatesAverage`, as the sum and the count it divides. */
    function CurrentRatesAverage(): (r: Option<Ratio>)
      requires Valid()
      reads Repr
      ensures r == if |Window()| == 0 then None
                   else Some(Ratio(Sum(ColumnOf(Window(), Rate)), |Window()|))
    {
      if current.sampleCount <= 0 then None else Some(Ratio(current.ratesSum, current.sampleCount))
    }

    /** `CurrentRatesMin` */
    function CurrentRatesMin(): (r: Option<int>)
      requires Valid()
      reads Repr
      ensures r == LeastOf(ColumnOf(Window(), Rate))
    {
      current.ratesMin
    }

    /** `CurrentRatesMax` */
    function CurrentRatesMax(): (r: Option<int>)
      requires Valid()
      reads Repr
      ensures r == GreatestOf(ColumnOf(Window(), Rate))
    {
      current.ratesMax
    }

    /** `CurrentTimestampMin` */
    function CurrentTimestampMin(): (r: Option<int>)
      requires Valid()
      reads Repr
      ensures r == LeastOf(ColumnOf(Window(), Timestamp))
    {
      current.timestampMin
    }

    /** `CurrentTimestampMax` */
    function CurrentTimestampMax(): (r: Option<int>)
      requires Valid()
      reads Repr
      ensures r == GreatestOf(ColumnOf(Window(), Timestamp))
    {
      current.timestampMax
    }

    /** `CurrentNaturalElapsed` */
    function CurrentNaturalElapsed(): (r: Option<int>)
      requires Valid()
      reads Repr
      ensures r == NaturalElapsed(Window())
    {
      current.naturalElapsed
    }

    /** `CurrentNaturalRate`: the window's value sum over its natural elapsed time. */
    function CurrentNaturalRate(): (r: Option<Ratio>)
      requires Valid()
      reads Repr
      ensures r.None? <==> NaturalElapsed(Window()).None?
      ensures r.Some? ==> r.value == Ratio(Sum(ColumnOf(Window(), Value)), NaturalElapsed(Window()).value)
    {
      if current.naturalElapsed.None? then None else Some(Ratio(current.samplesSum, current.naturalElapsed.value))
    }

    /** `Samples`: the window, oldest first. */
    method Samples() returns (samples: seq<Sample>)
      requires Valid()
      ensures samples == Window()
    {
      samples := SamplesQueue.Peek(-1);
    }

    /**
     * `BeginSample()` at clock reading `now`: the first call fixes the
     * lifetime timestamp; the recorder's start is `now`.
     */
    method BeginSample(now: int) returns (recorder: Recorder)
      requires Valid()
      modifies this
      ensures Valid() && Repr == old(Repr) && History == old(History)
      ensures lifetimeTimestamp == if old(lifetimeTimestamp).None? then Some(now) else old(lifetimeTimestamp)
      ensures fresh(recorder) && recorder.Valid() && recorder.Target == this
      ensures recorder.StartTimestamp == now && recorder.hasRecorded == 0
    {
      if lifetimeTimestamp.None? {
        lifetimeTimestamp := Some(now);
      }
      recorder := new Recorder(this, now);
    }

    /** `Dispose`: dispose the sample queue. */
    method Dispose()
      requires Valid()
      modifies Repr
      ensures SamplesQueue.disposed && SamplesQueue.Contents == old(SamplesQueue.Contents)
    {
      SamplesQueue.Dispose();
    }

    /**
     * `RecomputeStatistics`: scan a copy of the window once, oldest first,
     * and store the fresh aggregates (each reset when the window is empty).
     */
    method RecomputeStatistics()
      requires Structure()
      modifies this
      ensures Valid() && Repr == old(Repr) && History == old(History)
      ensures lifetimeTimestamp == old(lifetimeTimestamp)
    {
      var samples := CopyWindow();
      var scan := Stats(samples.Length, 0, None, None, 0, None, None, 0, None, None, None, None, None);
      if samples.Length > 0 {
        scan := ScanSamples(samples);
      }
      current := scan;
    }

    /**
     * What `Recorder.Record` does to the collector with an admitted sample:
     * evict the oldest sample when the window is full, enqueue the new one,
     * add it to the lifetime totals and recompute the aggregates.
     */
    method Accept(sample: Sample)
      requires Valid()
      modifies Repr
      ensures Valid() && fresh(Repr - old(Repr))
      ensures History == old(History) + [sample]
      ensures Window() == Admit(old(Window()), capacity, sample)
      ensures lifetimeSampleCount == old(lifetimeSampleCount) + 1
      ensures lifetimeSamplesSum == old(lifetimeSamplesSum) + sample.value
      ensures lifetimeTimestamp == old(lifetimeTimestamp)
    {
      AdmitKeepsRecent(History, capacity, sample);
      // The lifetime totals and the window are independent, so the totals are
      // updated first here although the source enqueues first.
      SumStep(ColumnOf(History, Value), sample.value);
      History := History + [sample];
      lifetimeSamplesSum := lifetimeSamplesSum + sample.value;
      lifetimeSampleCount := lifetimeSampleCount + 1;
      PushSample(sample);
      RecomputeStatistics();
    }

    /** The window part of `Accept`: evict the oldest sample when full, then enqueue. */
    method PushSample(sample: Sample)
      requires QueueReady() && capacity > 0
      modifies this, SamplesQueue.Repr
      ensures QueueReady() && fresh(Repr - old(Repr))
      ensures Window() == Admit(old(Window()), capacity, sample)
      ensures History == old(History) && current == old(current) && lifetimeTimestamp == old(lifetimeTimestamp)
      ensures lifetimeSamplesSum == old(lifetimeSamplesSum) && lifetimeSampleCount == old(lifetimeSampleCount)
    {
      if SamplesQueue.Count() >= capacity {
        SamplesQueue.ClearFirst(1);
      }
      SamplesQueue.Enqueue([sample]);
      Repr := {this} + SamplesQueue.Repr;
    }

    /**
     * The copy `RecomputeStatistics` scans: a fresh buffer as long as the
     * window, filled by `SamplesQueue.Peek`.
     */
    method CopyWindow() returns (samples: array<Sample>)
      requires Structure()
      ensures fresh(samples) && samples[..] == Window()
    {
      samples := new Sample[SamplesQueue.Count()];
      var copied := SamplesQueue.PeekInto(samples);
      assert samples[..] == samples[..copied];
    }
  }

  /**
   * The loop of `RecomputeStatistics` over the copied window: one pass,
   * oldest first, updating every minimum, maximum and sum, noting the
   * elapsed time of each sample that starts after all earlier ones, and
   * deriving the natural elapsed time at the end.
   */
  method ScanSamples(samples: array<Sample>) returns (scan: Stats)
    requires samples.Length > 0
    ensures scan == StatsOf(samples[..])
  {
    ghost var w := samples[..];
    scan := Stats(samples.Length, 0, None, None, 0, None, None, 0, None, None, None, None, None);
    var lastSampleElapsed: int := -1;
    var i := 0;
    while i < samples.Length
      invariant 0 <= i <= samples.Length
      invariant scan == Scanned(|w|, w[..i])
      invariant i == 0 ==> lastSampleElapsed == -1
      invariant i > 0 ==> lastSampleElapsed == LastRaiseOrMinusOne(w[..i])
    {
      var sample := samples[i];
      assert sample == w[i];
      ScanStep(w, i);
      if scan.timestampMax.Some? && sample.startTimestamp > scan.timestampMax.value {
        lastSampleElapsed := sample.elapsed;
      }
      scan := Step(scan, sample);
      i := i + 1;
    }
    assert w[..i] == w;
    if scan.timestampMin.Some? && scan.timestampMax.Some? && lastSampleElapsed != -1 {
      scan := scan.(naturalElapsed := Some(scan.timestampMax.value - scan.timestampMin.value + lastSampleElapsed));
    }
  }

  /**
   * `Recorder` (a boxed `record struct` handed out by `BeginSample`): it
   * records at most one sample into its collector.
   */
  class Recorder {
    const Target: StatisticsCollector
    const StartTimestamp: int
    /** `HasRecorded`, the count of `Record` calls. */
    var hasRecorded: nat

    ghost predicate Valid()
      reads this, Target, Target.Repr
    {
      Target.Valid() && this !in Target.Repr
    }

    constructor (target: StatisticsCollector, startTimestamp: int)
      requires target.Valid()
      ensures Valid() && Target == target && StartTimestamp == startTimestamp && hasRecorded == 0
    {
      Target := target;
      StartTimestamp := startTimestamp;
      hasRecorded := 0;
    }

    /**
     * `Record(sampleValue)` with the clock's elapsed time and the sample's
     * rate: a second call throws; a zero value is dropped when the collector
     * ignores zeroes; any other value is admitted to the window, added to the
     * lifetime totals and followed by a recomputation of the aggregates.
     */
    method Record(sampleValue: int, elapsed: nat, rate: int) returns (r: Outcome)
      requires Valid()
      modifies this, Target.Repr
      ensures Valid() && fresh(Target.Repr - old(Target.Repr)) && hasRecorded == old(hasRecorded) + 1
      ensures r.Fail? <==> old(hasRecorded) > 0
      ensures r.Fail? ==> r.error == InvalidOperation
      ensures var accepted := old(hasRecorded) == 0 && !(Target.IgnoreZeroes && sampleValue == 0);
        && (accepted ==>
              && Target.History == old(Target.History) + [Sample(StartTimestamp, elapsed, sampleValue, rate)]
              && Target.Window() == Admit(old(Target.Window()), Target.capacity, Sample(StartTimestamp, elapsed, sampleValue, rate))
              && Target.lifetimeSampleCount == old(Target.lifetimeSampleCount) + 1
              && Target.lifetimeSamplesSum == old(Target.lifetimeSamplesSum) + sampleValue)
        && (!accepted ==>
              && Target.History == old(Target.History) && Target.Window() == old(Target.Window())
              && Target.current == old(Target.current))
      ensures Target.lifetimeTimestamp == old(Target.lifetimeTimestamp)
    {
      hasRecorded := hasRecorded + 1;
      if hasRecorded > 1 {
        return Fail(InvalidOperation);
      }
      if Target.IgnoreZeroes && sampleValue == 0 {
        return Pass;
      }
      Target.Accept(Sample(StartTimestamp, elapsed, sampleValue, rate));
      r := Pass;
    }
  }

  /**
   * `new StatisticsCollector<T>(ignoreZeroes, capacity)` including its
   * failure: a capacity that is not positive throws `ArgumentOutOfRangeException`.
   */
  method New(ignoreZeroes: bool, cap: int) returns (r: Result<StatisticsCollector>)
    ensures r.Err? <==> cap <= 0
    ensures r.Err? ==> r.error == ArgumentOutOfRange
    ensures r.Ok? ==> fresh(r.value.Repr) && r.value.Valid() && r.value.Window() == []
    ensures r.Ok? ==> r.value.capacity == cap && r.value.IgnoreZeroes == ignoreZeroes
  {
    if cap <= 0 {
      return Err(ArgumentOutOfRange);
    }
    var c := new StatisticsCollector(ignoreZeroes, cap);
    r := Ok(c);
  }

  /** `new StatisticsCollector<T>(ignoreZeroes)` and `new StatisticsCollector<T>()`. */
  method NewDefault(ignoreZeroes: bool) returns (c: StatisticsCollector)
    ensures fresh(c.Repr) && c.Valid() && c.Window() == []
    ensures c.capacity == DefaultCapacity && c.IgnoreZeroes == ignoreZeroes
  {
    c := new StatisticsCollector(ignoreZeroes, DefaultCapacity);
  }
}
