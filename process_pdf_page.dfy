/**
 * `processPDFPage` of parseFromPdf.js after `stripSVG`: map every sampled
 * pixel to a (value, timestamp) pair, then keep one value per calendar
 * day by scanning from the last sample back to the first.
 */
module ProcessPdfPage {
  import opened Wrappers
  import opened Utils
  import opened DailySeries
  import opened DateFormat
  import StripSvg

  /** `new Date(2020, 1, 16).getTime()` (16 February 2020), at UTC. */
  const XDateMinMs: int := 1581811200000
  /** `new Date(2020, 2, 29).getTime()` (29 March 2020), at UTC. */
  const XDateMaxMs: int := 1585440000000
  const YPercentMax: int := 80

  datatype DomainPoint = DomainPoint(value: int, timestamp: int)

  datatype PageError =
    | StructuralMismatch(gridCount: nat, seriesCount: nat)
    | DegenerateChart(index: nat)

  /** A chart with no width or no height: `scale` would divide by zero. */
  predicate Degenerate(c: StripSvg.Chart)
  {
    c.width == 0.0 || c.height == 0.0
  }

  /**
   * The point map: `value = 80 - scale(y, top, top + height, 0, 160)`,
   * `timestamp = scale(x, left, left + width, X_DATE_MIN, X_DATE_MAX)`.
   */
  function MapPoint(p: StripSvg.Point, c: StripSvg.Chart): DomainPoint
    requires !Degenerate(c)
  {
    DomainPoint(
      YPercentMax - Scale(p.y, c.y, c.y + c.height, 0.0, (YPercentMax + YPercentMax) as real),
      Scale(p.x, c.x, c.x + c.width, XDateMinMs as real, XDateMaxMs as real))
  }

  /** The chart's edges map to the ends of both axes: +80 at the top, -80 at the bottom. */
  lemma MapPointAtEdges(p: StripSvg.Point, c: StripSvg.Chart)
    requires !Degenerate(c)
    ensures p.y == c.y ==> MapPoint(p, c).value == YPercentMax
    ensures p.y == c.y + c.height ==> MapPoint(p, c).value == -YPercentMax
    ensures p.x == c.x ==> MapPoint(p, c).timestamp == XDateMinMs
    ensures p.x == c.x + c.width ==> MapPoint(p, c).timestamp == XDateMaxMs
  {
    ScaleAtInMin(c.y, c.y + c.height, 0, (YPercentMax + YPercentMax) as real);
    ScaleAtInMax(c.y, c.y + c.height, 0.0, YPercentMax + YPercentMax);
    ScaleAtInMin(c.x, c.x + c.width, XDateMinMs, XDateMaxMs as real);
    ScaleAtInMax(c.x, c.x + c.width, XDateMinMs as real, XDateMaxMs);
  }

  /** A point inside the chart box maps into [-80, 80] and into the reporting window. */
  lemma MapPointWithinBox(p: StripSvg.Point, c: StripSvg.Chart)
    requires c.width > 0.0 && c.height > 0.0
    requires c.x <= p.x <= c.x + c.width && c.y <= p.y <= c.y + c.height
    ensures -YPercentMax <= MapPoint(p, c).value <= YPercentMax
    ensures XDateMinMs <= MapPoint(p, c).timestamp <= XDateMaxMs
  {
    var top, bottom := StripSvg.Point(p.x, c.y), StripSvg.Point(p.x, c.y + c.height);
    var left, right := StripSvg.Point(c.x, p.y), StripSvg.Point(c.x + c.width, p.y);
    MapPointAtEdges(top, c);
    MapPointAtEdges(bottom, c);
    MapPointAtEdges(left, c);
    MapPointAtEdges(right, c);
    ScaleMonotone(c.y, p.y, c.y, c.y + c.height, 0.0, (YPercentMax + YPercentMax) as real);
    ScaleMonotone(p.y, c.y + c.height, c.y, c.y + c.height, 0.0, (YPercentMax + YPercentMax) as real);
    ScaleMonotone(c.x, p.x, c.x, c.x + c.width, XDateMinMs as real, XDateMaxMs as real);
    ScaleMonotone(p.x, c.x + c.width, c.x, c.x + c.width, XDateMinMs as real, XDateMaxMs as real);
  }

  /** `chart.seriesPoints.map(...)`. */
  function DomainPoints(c: StripSvg.Chart): seq<DomainPoint>
    requires !Degenerate(c)
  {
    seq(|c.seriesPoints|, k requires 0 <= k < |c.seriesPoints| => MapPoint(c.seriesPoints[k], c))
  }

  /** Every point labelled with its formatted calendar date. */
  function Dated(points: seq<DomainPoint>, calendar: int -> CalendarDate): seq<DailyPoint>
  {
    seq(|points|, k requires 0 <= k < |points| =>
      DailyPoint(FormatDate(calendar(points[k].timestamp)), points[k].value))
  }

  /**
   * The downsampling loop: from the last point to the first, emit a point
   * for its date unless that date was already emitted.
   */
  method Downsample(points: seq<DomainPoint>, calendar: int -> CalendarDate)
    returns (downsampledPoints: seq<DailyPoint>)
    ensures downsampledPoints == UniqByDate(Reverse(Dated(points, calendar)))
    ensures DistinctDates(downsampledPoints)
    ensures DateSet(downsampledPoints) == DateSet(Dated(points, calendar))
    ensures |downsampledPoints| <= |points|
  {
    ghost var rev := Reverse(Dated(points, calendar));
    var doneDates: seq<string> := [];
    downsampledPoints := [];
    var i := |points| - 1;
    while i >= 0
      invariant -1 <= i < |points|
      invariant downsampledPoints == UniqByDate(rev[..|points| - 1 - i])
      invariant forall d :: d in doneDates <==> d in DateSet(downsampledPoints)
    {
      var date := FormatDate(calendar(points[i].timestamp));
      assert rev[..|points| - i][..|points| - 1 - i] == rev[..|points| - 1 - i];
      assert rev[|points| - 1 - i] == DailyPoint(date, points[i].value);
      if date !in doneDates {
        DateSetAppend(downsampledPoints, DailyPoint(date, points[i].value));
        doneDates := doneDates + [date];
        downsampledPoints := downsampledPoints + [DailyPoint(date, points[i].value)];
      }
      i := i - 1;
    }
    assert rev[..|points|] == rev;
    UniqByDateDistinct(rev);
    UniqByDateDates(rev);
    ReverseDates(Dated(points, calendar));
  }

  /** The point kept for a day is the last sample of that day. */
  lemma DownsampleKeepsLatest(dated: seq<DailyPoint>)
    ensures forall p :: p in UniqByDate(Reverse(dated)) ==>
      p.date in DateSet(dated) && p == dated[LastIndex(dated, p.date)]
  {
    var rev := Reverse(dated);
    ReverseDates(dated);
    UniqByDateFirstWins(rev);
    forall p | p in UniqByDate(rev) ensures p.date in DateSet(dated) && p == dated[LastIndex(dated, p.date)] {
      FirstIndexOfReverse(dated, p.date);
    }
  }

  /** Days come out in the order of their last samples, latest first. */
  lemma DownsampleOrder(dated: seq<DailyPoint>)
    ensures forall p :: p in UniqByDate(Reverse(dated)) ==> p.date in DateSet(dated)
    ensures forall a, b :: 0 <= a < b < |UniqByDate(Reverse(dated))| ==>
      LastIndex(dated, UniqByDate(Reverse(dated))[a].date) > LastIndex(dated, UniqByDate(Reverse(dated))[b].date)
  {
    var rev := Reverse(dated);
    var out := UniqByDate(rev);
    ReverseDates(dated);
    UniqByDateOrder(rev);
    forall a, b | 0 <= a < b < |out|
      ensures LastIndex(dated, out[a].date) > LastIndex(dated, out[b].date)
    {
      FirstIndexOfReverse(dated, out[a].date);
      FirstIndexOfReverse(dated, out[b].date);
    }
  }

  /** Downsampling a series that already has one point per day only reverses it. */
  lemma DownsampleOfDaily(dated: seq<DailyPoint>)
    requires DistinctDates(dated)
    ensures UniqByDate(Reverse(dated)) == Reverse(dated)
  {
    ReverseDates(dated);
    UniqByDateOfDistinct(Reverse(dated));
  }

  /** The series one chart yields: its samples mapped, then downsampled. */
  function ChartSeriesOf(chart: StripSvg.Chart, calendar: int -> CalendarDate): ChartSeries
    requires !Degenerate(chart)
  {
    ChartSeries(UniqByDate(Reverse(Dated(DomainPoints(chart), calendar))))
  }

  /** A chart's series has one point per day and no more points than samples. */
  lemma ChartSeriesOfIsDaily(chart: StripSvg.Chart, calendar: int -> CalendarDate)
    requires !Degenerate(chart)
    ensures DistinctDates(ChartSeriesOf(chart, calendar).points)
    ensures |ChartSeriesOf(chart, calendar).points| <= |chart.seriesPoints|
  {
    var rev := Reverse(Dated(DomainPoints(chart), calendar));
    UniqByDateDistinct(rev);
    UniqByDateDates(rev);
  }

  /**
   * One chart of `chartsProcessed`: map its samples, then downsample.
   * The source computes NaN for a chart with no width or height; the model
   * reports it as an error instead.
   */
  method ProcessChart(chart: StripSvg.Chart, index: nat, calendar: int -> CalendarDate)
    returns (r: Result<ChartSeries, PageError>)
    ensures r.Failure? <==> Degenerate(chart)
    ensures r.Failure? ==> r.error == DegenerateChart(index)
    ensures r.Success? ==> r.value == ChartSeriesOf(chart, calendar)
    ensures r.Success? ==> DistinctDates(r.value.points) && |r.value.points| <= |chart.seriesPoints|
  {
    if Degenerate(chart) {
      return Failure(DegenerateChart(index));
    }
    var points := DomainPoints(chart);
    var downsampledPoints := Downsample(points, calendar);
    return Success(ChartSeries(downsampledPoints));
  }

  /** `charts.map(...)` of `processPDFPage`: every chart mapped and downsampled, in order. */
  method ProcessCharts(charts: seq<StripSvg.Chart>, calendar: int -> CalendarDate)
    returns (r: Result<seq<ChartSeries>, PageError>)
    ensures r.Success? <==> forall k :: 0 <= k < |charts| ==> !Degenerate(charts[k])
    ensures r.Failure? ==>
      (r.error.DegenerateChart? && r.error.index < |charts| && Degenerate(charts[r.error.index]))
    ensures r.Success? ==> |r.value| == |charts|
    ensures r.Success? ==> forall k :: 0 <= k < |charts| ==>
      r.value[k] == ChartSeriesOf(charts[k], calendar)
  {
    var processed: seq<ChartSeries> := [];
    for n := 0 to |charts|
      invariant |processed| == n
      invariant forall k :: 0 <= k < n ==> !Degenerate(charts[k])
      invariant forall k :: 0 <= k < n ==> processed[k] == ChartSeriesOf(charts[k], calendar)
    {
      var chart := ProcessChart(charts[n], n, calendar);
      if chart.Failure? {
        return Failure(chart.error);
      }
      processed := processed + [chart.value];
    }
    return Success(processed);
  }

  /** No chart cut from these gridlines has zero width or zero height. */
  predicate BoxesNonDegenerate(gridPaths: seq<StripSvg.VectorPath>)
  {
    forall k :: 0 <= k < |gridPaths| / 5 ==>
      gridPaths[5 * k].bbox.width != 0.0 && gridPaths[5 * k].bbox.y != gridPaths[5 * k + 4].bbox.y
  }

  lemma ChartsNonDegenerate(charts: seq<StripSvg.Chart>, series: seq<StripSvg.VectorPath>,
                            grid: seq<StripSvg.VectorPath>, pointAt: (StripSvg.VectorPath, real) -> StripSvg.Point)
    requires |grid| == 5 * |series| && |charts| == |series|
    requires forall k :: 0 <= k < |charts| ==>
      charts[k] == StripSvg.ChartOf(StripSvg.ChartPaths(series[k], grid[5 * k..5 * k + 5]), pointAt)
    ensures (forall k :: 0 <= k < |charts| ==> !Degenerate(charts[k])) <==> BoxesNonDegenerate(grid)
  {
    forall k | 0 <= k < |charts|
      ensures !Degenerate(charts[k]) <==>
        grid[5 * k].bbox.width != 0.0 && grid[5 * k].bbox.y != grid[5 * k + 4].bbox.y
    {
      var group := grid[5 * k..5 * k + 5];
      assert group[0] == grid[5 * k] && group[4] == grid[5 * k + 4];
    }
  }

  /**
   * `processPDFPage` on an already rendered page: the charts of `stripSVG`,
   * each mapped and downsampled, in page order.
   */
  method ProcessPage(paths: seq<StripSvg.VectorPath>, pointAt: (StripSvg.VectorPath, real) -> StripSvg.Point,
                     calendar: int -> CalendarDate)
    returns (r: Result<seq<ChartSeries>, PageError>)
    requires |StripSvg.Select(paths, StripSvg.Gridline)| == 5 * |StripSvg.Select(paths, StripSvg.Series)| ==>
      forall p :: p in paths && p.stroke == StripSvg.SeriesStroke ==> p.length > 0.0
    ensures r.Success? <==>
      && |StripSvg.Select(paths, StripSvg.Gridline)| == 5 * |StripSvg.Select(paths, StripSvg.Series)|
      && BoxesNonDegenerate(StripSvg.Select(paths, StripSvg.Gridline))
    ensures |StripSvg.Select(paths, StripSvg.Gridline)| != 5 * |StripSvg.Select(paths, StripSvg.Series)| ==>
      r == Failure(StructuralMismatch(|StripSvg.Select(paths, StripSvg.Gridline)|,
                                      |StripSvg.Select(paths, StripSvg.Series)|))
    ensures r.Success? ==> |r.value| == |StripSvg.Select(paths, StripSvg.Series)|
    ensures r.Success? ==> forall k :: 0 <= k < |r.value| ==>
      var c := StripSvg.ChartOf(StripSvg.ChartPaths(StripSvg.Select(paths, StripSvg.Series)[k],
                                                    StripSvg.Select(paths, StripSvg.Gridline)[5 * k..5 * k + 5]), pointAt);
      !Degenerate(c) && r.value[k] == ChartSeriesOf(c, calendar)
    ensures r.Success? ==> forall k :: 0 <= k < |r.value| ==>
      DistinctDates(r.value[k].points) && |r.value[k].points| <= StripSvg.Resolution + 2
  {
    var stripped := StripSvg.StripCharts(paths, pointAt);
    if stripped.Failure? {
      return Failure(StructuralMismatch(stripped.error.gridCount, stripped.error.seriesCount));
    }
    var charts := stripped.value;
    ChartsNonDegenerate(charts, StripSvg.Select(paths, StripSvg.Series),
                        StripSvg.Select(paths, StripSvg.Gridline), pointAt);
    r := ProcessCharts(charts, calendar);
    if r.Success? {
      forall k | 0 <= k < |r.value|
        ensures DistinctDates(r.value[k].points) && |r.value[k].points| <= StripSvg.Resolution + 2
      {
        ChartSeriesOfIsDaily(charts[k], calendar);
      }
    }
  }
}
