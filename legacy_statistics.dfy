/**
 * The older `Services.StatisticsCollector<T>`: a window of at most
 * `MaxDataPoints` samples (the oldest evicted first) and lifetime totals;
 * every window aggregate is computed on demand by a scan over a copy of the
 * window instead of being kept up to date.
 *
 * Elapsed seconds are integers in one time unit, supplied by the caller in
 * place of the clock.
 */
module LegacyStatistics {
  import opened Wrappers
  import opened Aggregates
  import opened MemoryQueues
  import Statistics

  /** `MaxDataPoints` */
  const MaxDataPoints: nat := 1000

  /** `Sample<T>` of this collector: how long it took and its value. */
  datatype LegacySample = LegacySample(elapsedSeconds: int, value: int)

  datatype Field = ElapsedSeconds | Value

  function FieldOf(s: LegacySample, f: Field): int
  {
    match f
    case ElapsedSeconds => s.elapsedSeconds
    case Value => s.value
  }

  /** One field of a run of samples, in order. */
  function ColumnOf(w: seq<LegacySample>, f: Field): (r: seq<int>)
    ensures |r| == |w|
  {
    seq(|w|, i requires 0 <= i < |w| => FieldOf(w[i], f))
  }

  lemma ColumnOfPrefix(w: seq<LegacySample>, f: Field, i: nat)
    requires i < |w|
    ensures ColumnOf(w, f)[..i + 1] == ColumnOf(w, f)[..i] + [FieldOf(w[i], f)]
  {
  }

  /**
   * The sum loop of `CurrentElapsedSum` and `CurrentSamplesSum`, from a zero
   * start.
   */
  method SumField(samples: array<LegacySample>, f: Field) returns (total: int)
    ensures total == Sum(ColumnOf(samples[..], f))
  {
    ghost var col := ColumnOf(samples[..], f);
    total := 0;
    var i := 0;
    while i < samples.Length
      invariant 0 <= i <= samples.Length
      invariant total == Sum(col[..i])
    {
      ColumnOfPrefix(samples[..], f, i);
      SumStep(col[..i], FieldOf(samples[i], f));
      total := total + FieldOf(samples[i], f);
      i := i + 1;
    }
    assert col[..i] == col;
  }

  /**
   * The minimum loop of `CurrentElapsedMin` and `CurrentSamplesMin`: start
   * from the first sample, then visit every sample (the first one again) and
   * keep any strictly smaller value.
   */
  method MinField(samples: array<LegacySample>, f: Field) returns (least: int)
    requires samples.Length > 0
    ensures least == MinOf(ColumnOf(samples[..], f))
  {
    ghost var col := ColumnOf(samples[..], f);
    least := FieldOf(samples[0], f);
    var i := 0;
    while i < samples.Length
      invariant 0 <= i <= samples.Length
      invariant i == 0 ==> least == col[0]
      invariant i > 0 ==> least == MinOf(col[..i])
    {
      ColumnOfPrefix(samples[..], f, i);
      if i > 0 {
        MinOfStep(col[..i], FieldOf(samples[i], f));
      }
      if FieldOf(samples[i], f) < least {
        least := FieldOf(samples[i], f);
      }
      i := i + 1;
    }
    assert col[..i] == col;
  }

  /** The maximum loop of `CurrentElapsedMax` and `CurrentSamplesMax`. */
  method MaxField(samples: array<LegacySample>, f: Field) returns (greatest: int)
    requires samples.Length > 0
    ensures greatest == MaxOf(ColumnOf(samples[..], f))
  {
    ghost var col := ColumnOf(samples[..], f);
    greatest := FieldOf(samples[0], f);
    var i := 0;
    while i < samples.Length
      invariant 0 <= i <= samples.Length
      invariant i == 0 ==> greatest == col[0]
      invariant i > 0 ==> greatest == MaxOf(col[..i])
    {
      ColumnOfPrefix(samples[..], f, i);
      if i > 0 {
        MaxOfStep(col[..i], FieldOf(samples[i], f));
      }
      if FieldOf(samples[i], f) > greatest {
        greatest := FieldOf(samples[i], f);
      }
      i := i + 1;
    }
    assert col[..i] == col;
  }

  class LegacyCollector {
    const SamplesQueue: MemoryQueue<LegacySample>
    var lifetimeTimestamp: Option<int>
    /** `m_TotalSampleCount` */
    var totalSampleCount: nat
    /** `m_LifetimeSamplesSum` */
    var lifetimeSamplesSum: int

    /** Every sample ever committed, oldest first. */
    ghost var History: seq<LegacySample>
    ghost var Repr: set<object>

    /** The samples currently in the window. */
    ghost function Window(): seq<LegacySample>
      reads this, SamplesQueue
    {
      SamplesQueue.Contents
    }

    /** The sample queue is in working order and owned by this collector alone. */
    ghost predicate QueueReady()
      reads this, Repr
    {
      && this in Repr && SamplesQueue in Repr
      && SamplesQueue.Repr <= Repr && this !in SamplesQueue.Repr
      && Repr == {this} + SamplesQueue.Repr
      && SamplesQueue.Valid() && !SamplesQueue.disposed
    }

    ghost predicate Valid()
      reads this, Repr
      ensures Valid() ==> this in Repr
    {
      && QueueReady()
      && Window() == Statistics.Recent(History, MaxDataPoints)
      && totalSampleCount == |History|
      && lifetimeSamplesSum == Sum(ColumnOf(History, Value))
    }

    constructor ()
      ensures Valid() && fresh(Repr)
      ensures Window() == [] && History == [] && lifetimeTimestamp == None
    {
      SamplesQueue := new MemoryQueue<LegacySample>(MaxDataPoints);
      lifetimeTimestamp := None;
      totalSampleCount := 0;
      lifetimeSamplesSum := 0;
      History := [];
      new;
      Repr := {this} + SamplesQueue.Repr;
    }

    /** `Begin()` at clock reading `now`: the first call fixes the lifetime timestamp. */
    method Begin(now: int) returns (recorder: LegacyRecorder)
      requires Valid()
      modifies this
      ensures Valid() && Repr == old(Repr) && History == old(History)
      ensures lifetimeTimestamp == if old(lifetimeTimestamp).None? then Some(now) else old(lifetimeTimestamp)
      ensures fresh(recorder) && recorder.Valid() && recorder.Target == this
      ensures recorder.StartTimestamp == now && recorder.hasCommitted == 0
    {
      if lifetimeTimestamp.None? {
        lifetimeTimestamp := Some(now);
      }
      recorder := new LegacyRecorder(this, now);
    }

    /** `LifetimeElapsed` at clock reading `now`: zero before the first `Begin`. */
    function LifetimeElapsed(now: int): int
      reads this
    {
      if lifetimeTimestamp.None? then 0 else now - lifetimeTimestamp.value
    }

    /** `LifetimeSamplesSum`: the values of every committed sample, evicted or not. */
    function LifetimeSamplesSum(): (r: int)
      requires Valid()
      reads Repr
      ensures r == Sum(ColumnOf(History, Value))
    {
      lifetimeSamplesSum
    }

    /** The `stackalloc` copy each aggregate scans, filled by `SamplesQueue.Peek`. */
    method CopyWindow() returns (samples: array<LegacySample>)
      requires Valid()
      ensures fresh(samples) && samples[..] == Window()
    {
      samples := new LegacySample[SamplesQueue.Count()];
      var copied := SamplesQueue.PeekInto(samples);
      assert samples[..] == samples[..copied];
    }

    /** `CurrentElapsedSum` */
    method CurrentElapsedSum() returns (r: Option<int>)
      requires Valid()
      ensures r == if |Window()| == 0 then None else Some(Sum(ColumnOf(Window(), ElapsedSeconds)))
    {
      if SamplesQueue.Count() <= 0 {
        return None;
      }
      var samples := CopyWindow();
      var total := SumField(samples, ElapsedSeconds);
      r := Some(total);
    }

    /** `CurrentElapsedAverage`, as the sum and the count it divides. */
    method CurrentElapsedAverage() returns (r: Option<Statistics.Ratio>)
      requires Valid()
      ensures r == if |Window()| == 0 then None
                   else Some(Statistics.Ratio(Sum(ColumnOf(Window(), ElapsedSeconds)), |Window()|))
    {
      var currentSum := CurrentElapsedSum();
      var count := SamplesQueue.Count();
      if currentSum.None? || count <= 0 {
        return None;
      }
      r := Some(Statistics.Ratio(currentSum.value, count));
    }

    /** `CurrentElapsedMin` */
    method CurrentElapsedMin() returns (r: Option<int>)
      requires Valid()
      ensures r == if |Window()| == 0 then None else Some(MinOf(ColumnOf(Window(), ElapsedSeconds)))
    {
      if SamplesQueue.Count() <= 0 {
        return None;
      }
      var samples := CopyWindow();
      var least := MinField(samples, ElapsedSeconds);
      r := Some(least);
    }

    /** `CurrentElapsedMax` */
    method CurrentElapsedMax() returns (r: Option<int>)
      requires Valid()
      ensures r == if |Window()| == 0 then None else Some(MaxOf(ColumnOf(Window(), ElapsedSeconds)))
    {
      if SamplesQueue.Count() <= 0 {
        return None;
      }
      var samples := CopyWindow();
      var greatest := MaxField(samples, ElapsedSeconds);
      r := Some(greatest);
    }

    /** `CurrentSamplesSum` */
    method CurrentSamplesSum() returns (r: Option<int>)
      requires Valid()
      ensures r == if |Window()| == 0 then None else Some(Sum(ColumnOf(Window(), Value)))
    {
      if SamplesQueue.Count() <= 0 {
        return None;
      }
      var samples := CopyWindow();
      var total := SumField(samples, Value);
      r := Some(total);
    }

    /** `CurrentSamplesAverage`, as the sum and the count it divides. */
    method CurrentSamplesAverage() returns (r: Option<Statistics.Ratio>)
      requires Valid()
      ensures r == if |Window()| == 0 then None
                   else Some(Statistics.Ratio(Sum(ColumnOf(Window(), Value)), |Window()|))
    {
      var currentSum := CurrentSamplesSum();
      var count := SamplesQueue.Count();
      if currentSum.None? || count <= 0 {
        return None;
      }
      r := Some(Statistics.Ratio(currentSum.value, count));
    }

    /** `CurrentSamplesMin` */
    method CurrentSamplesMin() returns (r: Option<int>)
      requires Valid()
      ensures r == if |Window()| == 0 then None else Some(MinOf(ColumnOf(Window(), Value)))
    {
      if SamplesQueue.Count() <= 0 {
        return None;
      }
      var samples := CopyWindow();
      var least := MinField(samples, Value);
      r := Some(least);
    }

    /** `CurrentSamplesMax` */
    method CurrentSamplesMax() returns (r: Option<int>)
      requires Valid()
      ensures r == if |Window()| == 0 then None else Some(MaxOf(ColumnOf(Window(), Value)))
    {
      if SamplesQueue.Count() <= 0 {
        return None;
      }
      var samples := CopyWindow();
      var greatest := MaxField(samples, Value);
      r := Some(greatest);
    }

    /** `Samples`: the window, oldest first. */
    method Samples() returns (samples: seq<LegacySample>)
      requires Valid()
      ensures samples == Window()
    {
      samples := SamplesQueue.Peek(-1);
    }

    /** `Dispose`: dispose the sample queue. */
    method Dispose()
      requires Valid()
      modifies Repr
      ensures SamplesQueue.disposed && SamplesQueue.Contents == old(SamplesQueue.Contents)
    {
      SamplesQueue.Dispose();
    }

    /**
     * What `Recorder.Commit` does to the collector: evict the oldest sample
     * when the window is full, enqueue the new one and add it to the
     * lifetime totals.
     */
    method Accept(sample: LegacySample)
      requires Valid()
      modifies Repr
      ensures Valid() && fresh(Repr - old(Repr))
      ensures History == old(History) + [sample]
      ensures Window() == Statistics.Admit(old(Window()), MaxDataPoints, sample)
      ensures totalSampleCount == old(totalSampleCount) + 1
      ensures lifetimeSamplesSum == old(lifetimeSamplesSum) + sample.value
      ensures lifetimeTimestamp == old(lifetimeTimestamp)
    {
      Statistics.AdmitKeepsRecent(History, MaxDataPoints, sample);
      // The lifetime totals and the window are independent, so the totals are
      // updated first here although the source enqueues first.
      assert ColumnOf(History + [sample], Value) == ColumnOf(History, Value) + [sample.value];
      SumStep(ColumnOf(History, Value), sample.value);
      History := History + [sample];
      totalSampleCount := totalSampleCount + 1;
      lifetimeSamplesSum := lifetimeSamplesSum + sample.value;
      PushSample(sample);
    }

    /** The window part of `Accept`: evict the oldest sample when full, then enqueue. */
    method PushSample(sample: LegacySample)
      requires QueueReady()
      modifies this, SamplesQueue.Repr
      ensures QueueReady() && fresh(Repr - old(Repr))
      ensures Window() == Statistics.Admit(old(Window()), MaxDataPoints, sample)
      ensures History == old(History) && lifetimeTimestamp == old(lifetimeTimestamp)
      ensures totalSampleCount == old(totalSampleCount) && lifetimeSamplesSum == old(lifetimeSamplesSum)
    {
      if SamplesQueue.Count() >= MaxDataPoints {
        SamplesQueue.ClearFirst(1);
      }
      SamplesQueue.Enqueue([sample]);
      Repr := {this} + SamplesQueue.Repr;
    }
  }

  /** `Recorder`, boxed when `Begin` hands it out. */
  class LegacyRecorder {
    const Target: LegacyCollector
    const StartTimestamp: int
    /** `HasCommitted`, the count of `Commit` calls. */
    var hasCommitted: nat

    ghost predicate Valid()
      reads this, Target, Target.Repr
    {
      Target.Valid() && this !in Target.Repr
    }

    constructor (target: LegacyCollector, startTimestamp: int)
      requires target.Valid()
      ensures Valid() && Target == target && StartTimestamp == startTimestamp && hasCommitted == 0
    {
      Target := target;
      StartTimestamp := startTimestamp;
      hasCommitted := 0;
    }

    /**
     * `Commit(sampleValue)` with the clock's elapsed seconds: only the first
     * call records a sample; later calls return without effect.
     */
    method Commit(sampleValue: int, elapsedSeconds: int)
      requires Valid()
      modifies this, Target.Repr
      ensures Valid() && fresh(Target.Repr - old(Target.Repr)) && hasCommitted == old(hasCommitted) + 1
      ensures old(hasCommitted) == 0 ==>
        && Target.History == old(Target.History) + [LegacySample(elapsedSeconds, sampleValue)]
        && Target.Window() == Statistics.Admit(old(Target.Window()), MaxDataPoints, LegacySample(elapsedSeconds, sampleValue))
        && Target.totalSampleCount == old(Target.totalSampleCount) + 1
        && Target.lifetimeSamplesSum == old(Target.lifetimeSamplesSum) + sampleValue
      ensures old(hasCommitted) > 0 ==>
        && Target.History == old(Target.History) && Target.Window() == old(Target.Window())
        && Target.totalSampleCount == old(Target.totalSampleCount)
        && Target.lifetimeSamplesSum == old(Target.lifetimeSamplesSum)
    {
      hasCommitted := hasCommitted + 1;
      if hasCommitted > 1 {
        return;
      }
      Target.Accept(LegacySample(elapsedSeconds, sampleValue));
    }

    /** `Dispose`: disposing a recorder that never committed throws. */
    method Dispose() returns (r: Outcome)
      ensures r.Fail? <==> hasCommitted == 0
      ensures r.Fail? ==> r.error == InvalidOperation
    {
      if hasCommitted == 0 {
        return Fail(InvalidOperation);
      }
      r := Pass;
    }
  }
}
