/**
 * The chart extraction of `stripSVG` (parseFromPdf.js): label every path of
 * the rendered page as series, gridline or removed, cut the gridlines into
 * groups of five (one group per series path), take each chart's box from
 * its gridlines and sample its series path by arc length.
 *
 * A path is an abstract record of what the browser reports about it (the
 * resolved stroke, `getTotalLength()`, `getBBox()`); `getPointAtLength` is
 * the parameter `pointAt`.
 */
module StripSvg {
  import opened Wrappers

  const SeriesStroke: string := "rgb(66, 133, 244)"
  const GridlineStroke: string := "rgb(218, 220, 224)"
  /** Gridlines must be strictly longer than this; shorter ones are ticks. */
  const MinGridlineLength: real := 6.0
  /** Number of arc-length steps along a series path. */
  const Resolution: nat := 1000

  datatype BBox = BBox(x: real, y: real, width: real, height: real)
  datatype Point = Point(x: real, y: real)
  datatype VectorPath = VectorPath(stroke: string, length: real, bbox: BBox)

  datatype PathClass = Series | Gridline | Removed

  /** A chart after segmentation: one series path and its gridlines. */
  datatype ChartPaths = ChartPaths(seriesPath: VectorPath, gridPaths: seq<VectorPath>)

  /** A chart after the bounding-box map: its pixel box and its sampled series. */
  datatype Chart = Chart(x: real, y: real, width: real, height: real, seriesPoints: seq<Point>)

  datatype StripError = StructuralMismatch(gridCount: nat, seriesCount: nat)

  // ---------------------------------------------------------------------
  // Classification

  /** The label the classification loop gives a path, in the loop's precedence. */
  function ClassOf(p: VectorPath): PathClass
  {
    if p.stroke == SeriesStroke then Series
    else if p.stroke == GridlineStroke && p.length > MinGridlineLength then Gridline
    else Removed
  }

  /** The paths with label `c`, in document order. */
  function Select(paths: seq<VectorPath>, c: PathClass): seq<VectorPath>
  {
    if paths == [] then []
    else
      var last := paths[|paths| - 1];
      Select(paths[..|paths| - 1], c) + (if ClassOf(last) == c then [last] else [])
  }

  /** A path is selected for a label exactly when it is on the page and has that label. */
  lemma {:induction false} SelectMembers(paths: seq<VectorPath>, c: PathClass)
    ensures forall p :: p in Select(paths, c) <==> p in paths && ClassOf(p) == c
  {
    if paths != [] {
      var init, last := paths[..|paths| - 1], paths[|paths| - 1];
      assert paths == init + [last];
      SelectMembers(init, c);
    }
  }

  /** Every path lands in exactly one of the three lists. */
  lemma {:induction false} ClassificationPartitions(paths: seq<VectorPath>)
    ensures multiset(Select(paths, Series)) + multiset(Select(paths, Gridline))
      + multiset(Select(paths, Removed)) == multiset(paths)
  {
    if paths != [] {
      var init, last := paths[..|paths| - 1], paths[|paths| - 1];
      assert paths == init + [last];
      ClassificationPartitions(init);
    }
  }

  /**
   * The `querySelectorAll('path').forEach` loop: series paths and gridlines
   * are pushed in document order; every other path is removed.
   */
  method ClassifyPaths(paths: seq<VectorPath>)
    returns (seriesPaths: seq<VectorPath>, gridPaths: seq<VectorPath>, removedPaths: seq<VectorPath>)
    ensures seriesPaths == Select(paths, Series)
    ensures gridPaths == Select(paths, Gridline)
    ensures removedPaths == Select(paths, Removed)
    ensures forall p :: p in seriesPaths <==> p in paths && p.stroke == SeriesStroke
    ensures forall p :: p in gridPaths <==>
      p in paths && p.stroke == GridlineStroke && p.length > MinGridlineLength
    ensures forall p :: p in removedPaths <==>
      p in paths && p.stroke != SeriesStroke
      && !(p.stroke == GridlineStroke && p.length > MinGridlineLength)
    ensures multiset(seriesPaths) + multiset(gridPaths) + multiset(removedPaths) == multiset(paths)
  {
    seriesPaths, gridPaths, removedPaths := [], [], [];
    for n := 0 to |paths|
      invariant seriesPaths == Select(paths[..n], Series)
      invariant gridPaths == Select(paths[..n], Gridline)
      invariant removedPaths == Select(paths[..n], Removed)
    {
      assert paths[..n + 1][..n] == paths[..n];
      var path := paths[n];
      var isGridStroke := path.stroke == GridlineStroke;
      var isSeriesStroke := path.stroke == SeriesStroke;
      var isLongStroke := path.length > MinGridlineLength;
      if isSeriesStroke {
        seriesPaths := seriesPaths + [path];
      } else if isGridStroke && isLongStroke {
        gridPaths := gridPaths + [path];
      } else {
        removedPaths := removedPaths + [path];
      }
    }
    assert paths[..|paths|] == paths;
    assert SeriesStroke[4] != GridlineStroke[4];
    SelectMembers(paths, Series);
    SelectMembers(paths, Gridline);
    SelectMembers(paths, Removed);
    ClassificationPartitions(paths);
  }

  // ---------------------------------------------------------------------
  // Segmentation

  /** The gridline groups of the charts, one after the other. */
  function ConcatGrids(charts: seq<ChartPaths>): seq<VectorPath>
  {
    if charts == [] then []
    else ConcatGrids(charts[..|charts| - 1]) + charts[|charts| - 1].gridPaths
  }

  /**
   * One chart per series path, in order; then, unless there are exactly five
   * gridlines per series path (otherwise the source throws), chart `k` gets
   * gridlines `5k .. 5k+4`.
   */
  method SegmentCharts(seriesPaths: seq<VectorPath>, gridPaths: seq<VectorPath>)
    returns (r: Result<seq<ChartPaths>, StripError>)
    ensures r.Failure? <==> |gridPaths| != 5 * |seriesPaths|
    ensures r.Failure? ==> r.error == StructuralMismatch(|gridPaths|, |seriesPaths|)
    ensures r.Success? ==> |r.value| == |seriesPaths|
    ensures r.Success? ==> forall k :: 0 <= k < |r.value| ==>
      r.value[k].seriesPath == seriesPaths[k] && r.value[k].gridPaths == gridPaths[5 * k..5 * k + 5]
    ensures r.Success? ==> ConcatGrids(r.value) == gridPaths
  {
    var charts: seq<ChartPaths> := [];
    for n := 0 to |seriesPaths|
      invariant |charts| == n
      invariant forall k :: 0 <= k < n ==> charts[k].seriesPath == seriesPaths[k]
    {
      charts := charts + [ChartPaths(seriesPaths[n], [])];
    }

    if |gridPaths| != |seriesPaths| * 5 {
      return Failure(StructuralMismatch(|gridPaths|, |seriesPaths|));
    }

    var chartIndex := 0;
    var i := 0;
    while i < |gridPaths|
      invariant i == 5 * chartIndex && chartIndex <= |charts| == |seriesPaths|
      invariant forall k :: 0 <= k < |charts| ==> charts[k].seriesPath == seriesPaths[k]
      invariant forall k :: 0 <= k < chartIndex ==> charts[k].gridPaths == gridPaths[5 * k..5 * k + 5]
      invariant ConcatGrids(charts[..chartIndex]) == gridPaths[..i]
    {
      var group := gridPaths[i..i + 5];
      ghost var before := charts[..chartIndex];
      charts := charts[chartIndex := charts[chartIndex].(gridPaths := group)];
      assert charts[..chartIndex] == before;
      assert charts[..chartIndex + 1][..chartIndex] == before;
      assert gridPaths[..i + 5] == gridPaths[..i] + group;
      chartIndex := chartIndex + 1;
      i := i + 5;
    }
    assert charts[..chartIndex] == charts;
    assert gridPaths[..i] == gridPaths;
    return Success(charts);
  }

  // ---------------------------------------------------------------------
  // Geometry and sampling

  /**
   * The chart box: horizontally gridline 0's extent, vertically from
   * gridline 4's top to gridline 0's top.
   */
  function ChartBox(gridPaths: seq<VectorPath>): (b: BBox)
    requires |gridPaths| == 5
    ensures b.x == gridPaths[0].bbox.x && b.x + b.width == gridPaths[0].bbox.x + gridPaths[0].bbox.width
    ensures b.y == gridPaths[4].bbox.y && b.y + b.height == gridPaths[0].bbox.y
  {
    BBox(gridPaths[0].bbox.x, gridPaths[4].bbox.y, gridPaths[0].bbox.width,
         gridPaths[0].bbox.y - gridPaths[4].bbox.y)
  }

  /**
   * Arc-length positions sampled along a path of length `pathLength`:
   * `k * (pathLength / Resolution)` for `k = 0 .. Resolution`, and then the
   * explicit final sample at `pathLength`.
   */
  function SamplePositions(pathLength: real): seq<real>
  {
    seq(Resolution + 1, k requires 0 <= k <= Resolution => k as real * (pathLength / Resolution as real))
      + [pathLength]
  }

  /** `Resolution + 2` positions, from 0 to the full length, never decreasing. */
  lemma SamplePositionsSpan(pathLength: real)
    requires pathLength >= 0.0
    ensures |SamplePositions(pathLength)| == Resolution + 2
    ensures SamplePositions(pathLength)[0] == 0.0
    ensures SamplePositions(pathLength)[Resolution] == pathLength
    ensures SamplePositions(pathLength)[Resolution + 1] == pathLength
    ensures forall k :: 0 <= k < |SamplePositions(pathLength)| ==>
      0.0 <= SamplePositions(pathLength)[k] <= pathLength
    ensures forall k :: 0 < k < |SamplePositions(pathLength)| ==>
      SamplePositions(pathLength)[k - 1] <= SamplePositions(pathLength)[k]
  {
    var ps := SamplePositions(pathLength);
    var step := pathLength / Resolution as real;
    forall k | 0 <= k <= Resolution
      ensures ps[k] == k as real * step && 0.0 <= ps[k] <= pathLength
    {
      StepBound(k, pathLength);
    }
    forall k | 0 < k <= Resolution ensures ps[k - 1] <= ps[k] {
      SamplePositionNext(pathLength, k - 1);
    }
  }

  lemma StepBound(k: nat, pathLength: real)
    requires k <= Resolution && pathLength >= 0.0
    ensures 0.0 <= k as real * (pathLength / Resolution as real) <= pathLength
  {
    var step := pathLength / Resolution as real;
    assert Resolution as real * step == pathLength;
    ProductNonNegative(k as real, step);
    ProductNonNegative((Resolution - k) as real, step);
    assert (Resolution - k) as real * step == Resolution as real * step - k as real * step;
  }

  lemma ProductNonNegative(a: real, b: real)
    requires a >= 0.0 && b >= 0.0
    ensures a * b >= 0.0
  {
  }

  /** Consecutive positions below the full length are one step apart. */
  lemma SamplePositionNext(pathLength: real, k: nat)
    requires k < Resolution
    ensures SamplePositions(pathLength)[k + 1]
      == SamplePositions(pathLength)[k] + pathLength / Resolution as real
  {
    var step := pathLength / Resolution as real;
    assert (k + 1) as real * step == k as real * step + step;
  }

  /** The points `getPointAtLength` reports at the sample positions. */
  function SampleSeries(path: VectorPath, pointAt: (VectorPath, real) -> Point): seq<Point>
  {
    var ps := SamplePositions(path.length);
    seq(|ps|, k requires 0 <= k < |ps| => pointAt(path, ps[k]))
  }

  /**
   * `mapPoints`: walk the path from 0 in steps of `length / Resolution`
   * while within its length, then add the point at its full length.
   * The source's loop never ends on a path of length 0.
   */
  method MapPoints(path: VectorPath, pointAt: (VectorPath, real) -> Point) returns (points: seq<Point>)
    requires path.length > 0.0
    ensures points == SampleSeries(path, pointAt)
    ensures |points| == Resolution + 2
  {
    var pathLength := path.length;
    var step := pathLength / Resolution as real;
    ghost var ps := SamplePositions(pathLength);
    ghost var expected := SampleSeries(path, pointAt);
    SamplePositionsSpan(pathLength);
    points := [];
    var i: real := 0.0;
    ghost var k: nat := 0;
    while i <= pathLength
      invariant k <= Resolution + 1 && |points| == k
      invariant points == expected[..k]
      invariant k <= Resolution ==> i == ps[k]
      invariant k == Resolution + 1 ==> i > pathLength
      decreases Resolution + 1 - k
    {
      assert expected[k] == pointAt(path, i);
      assert expected[..k + 1] == expected[..k] + [expected[k]];
      points := points + [pointAt(path, i)];
      if k < Resolution {
        SamplePositionNext(pathLength, k);
      }
      i := i + step;
      k := k + 1;
    }
    assert expected[Resolution + 1] == pointAt(path, pathLength);
    assert expected == expected[..Resolution + 1] + [expected[Resolution + 1]];
    points := points + [pointAt(path, pathLength)];
  }

  /** The record the bounding-box map builds for one segmented chart. */
  function ChartOf(c: ChartPaths, pointAt: (VectorPath, real) -> Point): Chart
    requires |c.gridPaths| == 5
  {
    var b := ChartBox(c.gridPaths);
    Chart(b.x, b.y, b.width, b.height, SampleSeries(c.seriesPath, pointAt))
  }

  /** `charts.map(...)`: the box and the sampled series of every segmented chart. */
  method BoundCharts(groups: seq<ChartPaths>, pointAt: (VectorPath, real) -> Point)
    returns (charts: seq<Chart>)
    requires forall k :: 0 <= k < |groups| ==> |groups[k].gridPaths| == 5 && groups[k].seriesPath.length > 0.0
    ensures |charts| == |groups|
    ensures forall k :: 0 <= k < |groups| ==> charts[k] == ChartOf(groups[k], pointAt)
    ensures forall k :: 0 <= k < |groups| ==> |charts[k].seriesPoints| == Resolution + 2
  {
    charts := [];
    for n := 0 to |groups|
      invariant |charts| == n
      invariant forall k :: 0 <= k < n ==> charts[k] == ChartOf(groups[k], pointAt)
      invariant forall k :: 0 <= k < n ==> |charts[k].seriesPoints| == Resolution + 2
    {
      var g := groups[n];
      var seriesPoints := MapPoints(g.seriesPath, pointAt);
      var b := ChartBox(g.gridPaths);
      charts := charts + [Chart(b.x, b.y, b.width, b.height, seriesPoints)];
    }
  }

  /** Segmented charts take their series paths from the page's series-coloured paths. */
  lemma SeriesPathsPositive(paths: seq<VectorPath>, groups: seq<ChartPaths>)
    requires forall p :: p in paths && p.stroke == SeriesStroke ==> p.length > 0.0
    requires forall k :: 0 <= k < |groups| ==> groups[k].seriesPath in Select(paths, Series)
    ensures forall k :: 0 <= k < |groups| ==> groups[k].seriesPath.length > 0.0
  {
    SelectMembers(paths, Series);
  }

  /**
   * Segmentation and the bounding-box map over already classified paths.
   * The source throws on a gridline count other than five per series path.
   */
  method ChartsFromPaths(paths: seq<VectorPath>, seriesPaths: seq<VectorPath>, gridPaths: seq<VectorPath>,
                         pointAt: (VectorPath, real) -> Point)
    returns (r: Result<seq<Chart>, StripError>)
    requires seriesPaths == Select(paths, Series) && gridPaths == Select(paths, Gridline)
    requires |gridPaths| == 5 * |seriesPaths| ==>
      forall p :: p in paths && p.stroke == SeriesStroke ==> p.length > 0.0
    ensures r.Failure? <==> |gridPaths| != 5 * |seriesPaths|
    ensures r.Failure? ==> r.error == StructuralMismatch(|gridPaths|, |seriesPaths|)
    ensures r.Success? ==> |r.value| == |seriesPaths|
    ensures r.Success? ==> forall k :: 0 <= k < |r.value| ==>
      r.value[k] == ChartOf(ChartPaths(seriesPaths[k], gridPaths[5 * k..5 * k + 5]), pointAt)
    ensures r.Success? ==> forall k :: 0 <= k < |r.value| ==> |r.value[k].seriesPoints| == Resolution + 2
  {
    var groups :- SegmentCharts(seriesPaths, gridPaths);
    SeriesPathsPositive(paths, groups);
    var charts := BoundCharts(groups, pointAt);
    return Success(charts);
  }

  /**
   * The chart data `stripSVG` returns: classification, segmentation, then
   * box and samples for every chart.
   */
  method StripCharts(paths: seq<VectorPath>, pointAt: (VectorPath, real) -> Point)
    returns (r: Result<seq<Chart>, StripError>)
    requires |Select(paths, Gridline)| == 5 * |Select(paths, Series)| ==>
      forall p :: p in paths && p.stroke == SeriesStroke ==> p.length > 0.0
    ensures r.Failure? <==> |Select(paths, Gridline)| != 5 * |Select(paths, Series)|
    ensures r.Failure? ==>
      r.error == StructuralMismatch(|Select(paths, Gridline)|, |Select(paths, Series)|)
    ensures r.Success? ==> |r.value| == |Select(paths, Series)|
    ensures r.Success? ==> forall k :: 0 <= k < |r.value| ==>
      r.value[k] == ChartOf(ChartPaths(Select(paths, Series)[k], Select(paths, Gridline)[5 * k..5 * k + 5]), pointAt)
    ensures r.Success? ==> forall k :: 0 <= k < |r.value| ==> |r.value[k].seriesPoints| == Resolution + 2
  {
    var seriesPaths, gridPaths, removedPaths := ClassifyPaths(paths);
    r := ChartsFromPaths(paths, seriesPaths, gridPaths, pointAt);
  }
}
