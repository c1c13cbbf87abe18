# Mobility report chart digitisation, modelled in Dafny

The repository downloads the Community Mobility Report PDFs, renders the
first two pages of each to SVG, and reads the six line charts off the
vector paths. For each chart it does the following:

- It classifies every path as a series curve, a gridline or noise, by
  stroke colour and arc length.
- It cuts the gridlines into groups of five, one group per series curve.
- It takes the chart's pixel box from gridlines 0 and 4.
- It samples the curve at 1000 arc-length steps.
- It maps every sample to a percentage and a timestamp. A sample inside
  the chart box lands in [-80, 80] and in the reporting window
  (16 February to 29 March 2020).
- It keeps one value per calendar day, the last sample of that day.

The six series of a geography are then stored under their chart types and
merged with the geography's stored `mobility.json` record. For each chart
type the merge does two things:

- It de-duplicates by date, and the stored point wins.
- It sorts the result latest date first.

The Dafny project models this core:

| file | module | models |
|---|---|---|
| `wrappers.dfy` | `Wrappers` | the `Result` type used for every error path |
| `utils.dfy` | `Utils` | `scale` of utils.js and `Math.round`, over exact reals |
| `strip_svg.dfy` | `StripSvg` | the chart extraction of `stripSVG`: classification, segmentation, box, `mapPoints` |
| `date_format.dfy` | `DateFormat` | `pad` and `formatDate`, and why string order is date order |
| `daily_series.dfy` | `DailySeries` | daily points, keep-first-per-date and the date sort |
| `process_pdf_page.dfy` | `ProcessPdfPage` | `processPDFPage` after rendering: point mapping and daily downsampling |
| `index.dfy` | `Index` | `makePDFUrl`, the US state codes, chart assignment, `mergeMobilityJSON` |

Both sites that keep the first point per date use one function,
`DailySeries.UniqByDate`:

- the reverse scan of the downsampling loop, which is `UniqByDate` of the
  reversed list;
- lodash `uniqBy` in the merge.

Each method that has a loop in the source is a Dafny method with that loop.
Its `ensures` ties the result to a specification function, and the
properties are proved as lemmas about that function.

Three points of the code that are easy to misread:

- **Gridline numbering.** The box takes `y` from gridline 4 and
  `height = gridline0.y - gridline4.y`. In SVG coordinates, gridline 4 is
  therefore the top line (+80) and gridline 0 the bottom line (-80).
- **Zero-size charts.** On a chart of zero width or height the code
  divides by zero. The model reports `DegenerateChart(index)` instead (see
  "Left out").
- **Missing stored record.** `require` of a missing `mobility.json`
  throws. The model takes the stored record as a parameter and reports a
  series missing from it as `MissingSeries`.

## Model

| member | source | states |
|---|---|---|
| Utils.Round | utils.js:4 | `Math.round` gives the integer within half a unit of its argument, halves rounding up |
| Utils.Scale | utils.js:3-5 | `scale` is within half a unit of the exact linear interpolation of `num` from [inMin, inMax] onto [outMin, outMax] |
| Utils.RoundInt | utils.js:4 | rounding an integer gives it back |
| Utils.RoundMonotone | utils.js:4 | rounding never reverses order |
| Utils.ScaleAtInMin | utils.js:3-5 | `inMin` maps exactly to an integral `outMin` |
| Utils.ScaleAtInMax | utils.js:3-5 | `inMax` maps exactly to an integral `outMax` |
| Utils.ScaleAtMidpoint | utils.js:3-5 | the midpoint of the input range maps to the rounded midpoint of the output range |
| Utils.ScaleMonotone | utils.js:3-5 | with an increasing input range and a non-decreasing output range, `scale` is non-decreasing in `num` |
| StripSvg.SelectMembers | parseFromPdf.js:88-101 | a path is in a class's list exactly when it is on the page and the loop's test gives it that class |
| StripSvg.ClassificationPartitions | parseFromPdf.js:88-101 | series, gridline and removed lists together are a permutation of the page's paths |
| StripSvg.ClassifyPaths | parseFromPdf.js:88-101 | the loop keeps document order. A path is a series path iff its stroke is the series colour. It is a gridline iff its stroke is the gridline colour and it is longer than 6. Otherwise it is removed. The three lists partition the input |
| StripSvg.SegmentCharts | parseFromPdf.js:109-129 | fails with both counts iff there are not exactly five gridlines per series path. Otherwise chart `k` has series path `k` and gridlines `5k..5k+4`, and the groups concatenate back to the gridline list |
| StripSvg.ChartBox | parseFromPdf.js:132-137 | the box spans gridline 0 horizontally and runs vertically from gridline 4's top to gridline 0's top |
| StripSvg.SamplePositionsSpan | parseFromPdf.js:62-77 | the sample positions number 1002. They start at 0, reach the full length at step 1000, repeat it for the final sample, stay within [0, length] and never decrease |
| StripSvg.MapPoints | parseFromPdf.js:62-80 | the stepping loop plus the final push give exactly the points at the sample positions, 1002 of them |
| StripSvg.BoundCharts | parseFromPdf.js:132-139 | chart `k` gets the box of group `k` and the samples of its series path, in order |
| StripSvg.ChartsFromPaths | parseFromPdf.js:109-139 | on classified paths: fails with both counts iff there are not five gridlines per series path. Otherwise chart `k` is built from series path `k` and gridlines `5k..5k+4`, with 1002 samples. Positive series lengths are needed only when the counts match |
| StripSvg.StripCharts | parseFromPdf.js:88-139 | fails iff the gridline count is not five times the series count. Otherwise it returns one chart per series path in order, each built from its own five gridlines and with 1002 samples |
| DateFormat.PadLength | parseFromPdf.js:173 | `pad` writes every month or day number up to 99 with two characters |
| DateFormat.PadOrder | parseFromPdf.js:173 | padded numbers compare as strings exactly as the numbers compare, and are equal exactly when the numbers are |
| DateFormat.FormatDateOrder | parseFromPdf.js:174-175 | for dates with four-digit years, `formatDate` strings compare in calendar order, and are equal exactly when the dates are |
| DailySeries.UniqByDateDates | index.js:91 | keeping the first point per date loses no date, adds none, and never lengthens the list |
| DailySeries.UniqByDateDistinct | index.js:91 | no date is kept twice |
| DailySeries.UniqByDateFirstWins | index.js:91 | every kept point is the first point of its date in the input |
| DailySeries.UniqByDateOrder | index.js:91 | kept points appear in the order in which their dates first occur |
| DailySeries.UniqByDateOfDistinct | index.js:91 | a list with distinct dates is returned unchanged |
| DailySeries.UniqByDateAbsorbs | index.js:91 | appending points whose dates are already present changes nothing |
| DailySeries.SortByDateDescPermutes | index.js:91-93 | the date sort is a permutation of its input |
| DailySeries.SortByDateDescSorted | index.js:91-93 | on distinct dates the date sort puts later dates strictly first |
| DailySeries.SortByDateDescOfSorted | index.js:91-93 | the sort leaves an already descending list unchanged |
| ProcessPdfPage.MapPointAtEdges | parseFromPdf.js:159-167 | the box's top and bottom map to +80 and -80, and its left and right edges to `X_DATE_MIN` and `X_DATE_MAX` |
| ProcessPdfPage.MapPointWithinBox | parseFromPdf.js:159-167 | a point inside the box maps to a value in [-80, 80] and a timestamp in the reporting window |
| ProcessPdfPage.Downsample | parseFromPdf.js:169-184 | the backwards scan gives the first-per-date of the reversed dated samples. The dates are distinct, every sampled date is present, and there are no more points than samples |
| ProcessPdfPage.DownsampleKeepsLatest | parseFromPdf.js:177-184 | the point kept for a day is that day's last sample |
| ProcessPdfPage.DownsampleOrder | parseFromPdf.js:177-184 | days come out ordered by their last sample, latest first |
| ProcessPdfPage.DownsampleOfDaily | parseFromPdf.js:177-184 | samples already one per day come out reversed and otherwise unchanged |
| ProcessPdfPage.ChartSeriesOfIsDaily | parseFromPdf.js:159-186 | a chart's series has one point per day and at most one point per sample |
| ProcessPdfPage.ProcessChart | parseFromPdf.js:159-187 | fails exactly on a chart of zero width or height. Otherwise it returns the mapped and downsampled series |
| ProcessPdfPage.ProcessCharts | parseFromPdf.js:159-187 | succeeds iff no chart is degenerate, then gives each chart's series in order. On failure it names a degenerate chart |
| ProcessPdfPage.ChartsNonDegenerate | parseFromPdf.js:132-137 | every chart has a non-zero box exactly when each group's gridline 0 has non-zero width and a top different from gridline 4's |
| ProcessPdfPage.ProcessPage | parseFromPdf.js:148-193 | succeeds iff there are five gridlines per series path and no box is degenerate. On the count error it reports both counts. On success series `k` is the mapped and downsampled series of the chart built from series path `k` and gridlines `5k..5k+4`, with distinct dates and at most 1002 points |
| Index.MakePdfUrlInjective | index.js:17-19 | for dates of one length, different (date, country code) pairs give different report URLs |
| Index.FirstStateNamed | index.js:35-37 | `find`: the first entry with the name, or past the end when none has it |
| Index.GetUSStateCode | index.js:34-39 | returns the code of the first state whose name matches the decoded geography code. It fails exactly when none matches |
| Index.StateNameRoundTrip | index.js:31-36 | decoding the geography code of a name without `_` gives the name back |
| Index.StateCodeLookup | index.js:31-39 | with unique names without `_`, every code of `USStateCodeList` looks up its own state |
| Index.MergeSeries | index.js:90-94 | the merged series is strictly descending by date and distinct. Its dates are the union of both inputs' dates. On a shared date the stored (first) series' point wins, and every other point is the new series' first point of its date |
| Index.MergeSeriesIdempotent | index.js:83-100 | merging the same new series a second time changes nothing |
| Index.MergeMobilityJson | index.js:83-100 | succeeds iff both records have every chart type under the key. The result has only that key and exactly the six chart types, each holding the merge of A's and B's series |
| Index.AssignCharts | index.js:125-142 | fails with `ChartCountMismatch` unless there are exactly six charts; like the source's error, it carries no count. Otherwise chart `i` of page 1 then page 2 is stored under chart type `i` |
| Index.UpdateGeography | index.js:125-144 | succeeds iff there are six charts and the stored record has every chart type. With any other number of charts it fails with the count-free `ChartCountMismatch`. Otherwise each chart type holds the merge of the stored series with the new chart |

## Left out

- Rendering is not modelled: `pdfToSVG` (Inkscape), `getPageCanvas`
  (puppeteer), `flattenSVG`, the selector-based pruning, the empty-group
  removal and `compressSVG` (SVGO) are outside the model. A page is the
  list of its paths, each path given by its resolved stroke, arc length
  and bounding box. `getPointAtLength` is the parameter `pointAt`.
- Time zones are not modelled. Turning a timestamp into local calendar
  fields (`getFullYear`, `getMonth`, `getDate`) is the parameter
  `calendar`.
- `XDateMinMs` and `XDateMaxMs` are the window ends at UTC midnight. The
  source builds them in the machine's local time zone.
- Floating point is not modelled. Coordinates and arc lengths are exact
  reals. `StripSvg.MapPoints` therefore always takes 1001 steps; with
  binary floating-point steps the source may stop after 1000.
- StripSvg.MapPoints requires a positive path length, because the
  source's loop never ends on a path of length 0. `StripCharts` and
  `ProcessPage` pass this requirement on for series-coloured paths, but
  only for pages whose gridline count is five per series path. On other
  pages the count error comes before any sampling.
- ProcessPdfPage.ProcessChart, `ProcessCharts` and `ProcessPage` fail with
  `DegenerateChart(index)` on a chart of zero width or height. The source
  does not fail there:
  - at zero height, `scale` divides by zero and the values are NaN or
    plus or minus Infinity;
  - at zero width, every timestamp is an Invalid Date and every point is
    dated `NaN-NaN-NaN`.
  The model has no NaN or Infinity, so it does not give these values.
- Index.MergeSeries sorts by string comparison of the `YYYY-MM-DD`
  strings. The source compares `new Date(date).getTime()`.
  `DateFormat.FormatDateOrder` proves the two orders agree on dates with
  four-digit years. The source's behaviour on unparsable date strings
  (NaN comparisons) is not modelled.
- Index.StateNameRoundTrip requires a state name without `_`, because
  such a name does not survive the `_`/space encoding.
- The script-level parts of index.js are not modelled:
  - the file system: reading and writing `mobility.json` and the CSV
    files (the stored record is a parameter);
  - the network: `download`;
  - the queues and workers: `PQueue`, `jest-worker`;
  - the batch loops: `downloadForAll`, `processForAll`, `run`, and the
    path building around them.
  They are I/O and concurrency; only the data logic they apply to one
  geography is modelled (`Index.UpdateGeography`).
- `jsonArrayToCSV` is not part of this model: utils.js does not define it,
  and it only formats the stored record for the CSV files.
- `console.log` output is not modelled.
