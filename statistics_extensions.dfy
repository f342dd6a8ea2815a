/**
 * `StatisticsExtensions`: when a throughput report is due, which figures it
 * carries, and how a byte amount is expressed in bits, kilobits or megabits.
 * The log call itself, the rounding to two decimals and the text formatting
 * are not modelled; a report is the value that would be logged.
 */
module StatisticsExtensions {
  import opened Wrappers
  import opened Aggregates
  import opened Statistics

  /** `TransferType` */
  datatype TransferType = TX | RX

  datatype BitUnit = Bits | Kbits | Mbits

  /** How many bits one of `u` stands for. */
  function UnitSize(u: BitUnit): real
  {
    match u
    case Bits => 1.0
    case Kbits => 1000.0
    case Mbits => 1000000.0
  }

  /** An amount in a unit, before it is rounded and formatted. */
  datatype Quantity = Quantity(amount: real, unit: BitUnit)

  function Abs(x: real): real
  {
    if x < 0.0 then -x else x
  }

  /**
   * `ToBits`: the magnitude of `byteLength` in bits, in megabits above one
   * million bits, in kilobits above one thousand, in bits otherwise. The
   * quantity converts back to the exact bit count, and a scaled unit is only
   * chosen when it leaves more than one of it.
   */
  function ToBits(byteLength: real): (q: Quantity)
    ensures q.amount * UnitSize(q.unit) == Abs(byteLength * 8.0)
    ensures q.unit == Mbits <==> Abs(byteLength * 8.0) > 1000000.0
    ensures q.unit == Bits <==> Abs(byteLength * 8.0) <= 1000.0
    ensures q.unit == Bits ==> 0.0 <= q.amount <= 1000.0
    ensures q.unit == Kbits ==> 1.0 < q.amount <= 1000.0
    ensures q.unit == Mbits ==> 1.0 < q.amount
  {
    var totalBits := Abs(byteLength * 8.0);
    if totalBits > 1000000.0 then Quantity(totalBits / 1000000.0, Mbits)
    else if totalBits > 1000.0 then Quantity(totalBits / 1000.0, Kbits)
    else Quantity(totalBits, Bits)
  }

  /**
   * What `LogDataStatistics` receives: the lifetime total, the natural rate
   * and the peak rate, each absent one being the text "N/A".
   */
  datatype Report = Report(
    source: string, connectionIndex: int, op: TransferType,
    total: Quantity, rate: Option<Quantity>, peak: Option<Quantity>)

  /**
   * `ReportStatistics(logger, source, connectionIndex, op, stats,
   * ref lastReportSampleCount)` with `Constants.ReportSampleCount` as
   * `reportSampleCount`: no report before the first sample, none for a
   * sample count already reported, none between multiples of
   * `reportSampleCount`; otherwise a report of the collector's lifetime sum,
   * natural rate and peak rate. The "ref" count is returned as it came in,
   * since the source never writes it.
   */
  function ReportStatistics(source: string, connectionIndex: int, op: TransferType,
                            stats: StatisticsCollector, lastReportSampleCount: int,
                            reportSampleCount: nat): (r: (Option<Report>, int))
    requires stats.Valid() && reportSampleCount > 0
    reads stats.Repr
    ensures r.1 == lastReportSampleCount
    ensures r.0.Some? <==>
      && |stats.History| > 0
      && |stats.History| != lastReportSampleCount
      && |stats.History| % reportSampleCount == 0
    ensures r.0.Some? ==>
      && r.0.value.total == ToBits(Sum(ColumnOf(stats.History, Value)) as real)
      && (r.0.value.rate.None? <==> NaturalElapsed(stats.Window()).None?)
      && (r.0.value.peak.None? <==> |stats.Window()| == 0)
  {
    var statCount := stats.LifetimeSampleCount();
    // The count is positive when the remainder is taken, so the remainder
    // agrees with C#'s `%`.
    if statCount <= 0 || statCount == lastReportSampleCount || statCount % reportSampleCount != 0 then
      (None, lastReportSampleCount)
    else
      var total := ToBits(stats.LifetimeSamplesSum() as real);
      NaturalElapsedPositive(stats.Window());
      var rate := RateBits(stats.CurrentNaturalRate());
      var peak := if stats.CurrentRatesMax().None? then None else Some(ToBits(stats.CurrentRatesMax().value as real));
      (Some(Report(source, connectionIndex, op, total, rate, peak)), lastReportSampleCount)
  }

  /** The natural rate `(double)stats.CurrentNaturalRate` in bits per time unit. */
  function RateBits(rate: Option<Ratio>): (q: Option<Quantity>)
    requires rate.Some? ==> rate.value.denominator > 0
    ensures q.None? <==> rate.None?
  {
    match rate
    case None => None
    case Some(Ratio(n, d)) => Some(ToBits(n as real / d as real))
  }

  /**
   * Because the "ref" count comes back unchanged, a caller that keeps
   * passing it to the next call gets the same report again for as long as
   * the lifetime count stays on a multiple of `reportSampleCount`: the
   * equality guard never suppresses anything.
   */
  lemma RepeatedReportAsWritten(source: string, connectionIndex: int, op: TransferType,
                                stats: StatisticsCollector, lastReportSampleCount: int,
                                reportSampleCount: nat)
    requires stats.Valid() && reportSampleCount > 0
    requires ReportStatistics(source, connectionIndex, op, stats, lastReportSampleCount, reportSampleCount).0.Some?
    ensures var first := ReportStatistics(source, connectionIndex, op, stats, lastReportSampleCount, reportSampleCount);
      ReportStatistics(source, connectionIndex, op, stats, first.1, reportSampleCount) == first
  {
  }

  /**
   * The evidently intended `ReportStatistics`: the same gate and report, and
   * the "ref" count is set to the reported count.
   */
  function ReportStatisticsUpdating(source: string, connectionIndex: int, op: TransferType,
                                    stats: StatisticsCollector, lastReportSampleCount: int,
                                    reportSampleCount: nat): (r: (Option<Report>, int))
    requires stats.Valid() && reportSampleCount > 0
    reads stats.Repr
    ensures r.0 == ReportStatistics(source, connectionIndex, op, stats, lastReportSampleCount, reportSampleCount).0
    ensures r.1 == if r.0.Some? then |stats.History| else lastReportSampleCount
  {
    var (report, _) := ReportStatistics(source, connectionIndex, op, stats, lastReportSampleCount, reportSampleCount);
    (report, if report.Some? then stats.LifetimeSampleCount() else lastReportSampleCount)
  }

  /**
   * With the count written back, a repeated call for the same lifetime
   * count reports nothing, and a later report needs `reportSampleCount`
   * more samples.
   */
  lemma ReportOncePerCount(source: string, connectionIndex: int, op: TransferType,
                           stats: StatisticsCollector, lastReportSampleCount: int,
                           reportSampleCount: nat)
    requires stats.Valid() && reportSampleCount > 0
    ensures var first := ReportStatisticsUpdating(source, connectionIndex, op, stats, lastReportSampleCount, reportSampleCount);
      first.0.Some? ==>
        ReportStatisticsUpdating(source, connectionIndex, op, stats, first.1, reportSampleCount) == (None, first.1)
  {
  }
}
