/**
 * The data logic of index.js: report URLs, US state codes, assigning a
 * geography's six charts to their chart types, and merging a new
 * extraction into the stored mobility record.
 */
module Index {
  import opened Wrappers
  import opened DailySeries

  const PdfUrlPrefix: string := "https://www.gstatic.com/covid19/mobility/"
  const PdfUrlSuffix: string := "_Mobility_Report_en.pdf"

  /** The six chart types, in the order the two report pages show them. */
  const ChartTypes: seq<string> := [
    "retailAndRecreation",
    "groceryAndPharmacy",
    "parks",
    "transitStations",
    "workplaces",
    "residential"
  ]

  /** A mobility.json record: category key -> chart type -> series. */
  type MobilityJson = map<string, map<string, ChartSeries>>

  /** `us-states`: (state code, state name) entries in the object's key order. */
  type StateTable = seq<(string, string)>

  datatype IndexError =
    | MissingSeries(jsonKey: string, chartType: string)
    /** The message of index.js carries no count: `Error` ignores its second argument. */
    | ChartCountMismatch
    | NoMatchingState(stateNameCode: string)

  // ---------------------------------------------------------------------
  // Report URLs

  /** `makePDFUrl`. */
  function MakePdfUrl(date: string, countryCode: string): string
  {
    PdfUrlPrefix + date + "_" + countryCode + PdfUrlSuffix
  }

  /** For dates of one fixed length, different (date, code) pairs get different URLs. */
  lemma MakePdfUrlInjective(date1: string, code1: string, date2: string, code2: string)
    requires |date1| == |date2|
    requires MakePdfUrl(date1, code1) == MakePdfUrl(date2, code2)
    ensures date1 == date2 && code1 == code2
  {
    var u1, u2 := MakePdfUrl(date1, code1), MakePdfUrl(date2, code2);
    var p, n := |PdfUrlPrefix|, |date1|;
    assert |code1| == |code2|;
    assert date1 == u1[p..p + n] && date2 == u2[p..p + n];
    assert code1 == u1[p + n + 1..p + n + 1 + |code1|];
    assert code2 == u2[p + n + 1..p + n + 1 + |code2|];
  }

  // ---------------------------------------------------------------------
  // US state codes

  /** `s.replace(/x/g, y)` for single characters. */
  function ReplaceAll(s: string, from: char, to: char): string
  {
    seq(|s|, i requires 0 <= i < |s| => if s[i] == from then to else s[i])
  }

  /** `s.replace(pattern, replacement)` with a string pattern: only the first occurrence. */
  function ReplaceFirst(s: string, pattern: string, replacement: string): string
  {
    if |pattern| <= |s| && s[..|pattern|] == pattern then replacement + s[|pattern|..]
    else if s == [] then s
    else [s[0]] + ReplaceFirst(s[1..], pattern, replacement)
  }

  /** The geography code of a state: `US_` and the name with spaces made `_`. */
  function StateNameCode(stateName: string): string
  {
    "US_" + ReplaceAll(stateName, ' ', '_')
  }

  /** `USStateCodeList`. */
  function USStateCodeList(states: StateTable): seq<string>
  {
    seq(|states|, i requires 0 <= i < |states| => StateNameCode(states[i].1))
  }

  /** The name a state code is matched against: the first `US_` dropped, `_` made spaces. */
  function StateNameOf(stateNameCode: string): string
  {
    ReplaceAll(ReplaceFirst(stateNameCode, "US_", ""), '_', ' ')
  }

  /** The position of the first entry named `name`, or `|states|` if there is none. */
  function FirstStateNamed(states: StateTable, name: string): (i: nat)
    ensures i <= |states|
    ensures i < |states| ==> states[i].1 == name
    ensures forall j :: 0 <= j < i ==> states[j].1 != name
  {
    if states == [] then 0
    else if states[0].1 == name then 0
    else 1 + FirstStateNamed(states[1..], name)
  }

  /**
   * `getUSStateCodeFromStateNameCode`: the code of the first entry whose
   * name matches. The source reads `[0]` of `undefined` when none does.
   */
  function GetUSStateCode(states: StateTable, stateNameCode: string): (r: Result<string, IndexError>)
    ensures r.Success? <==> exists i :: 0 <= i < |states| && states[i].1 == StateNameOf(stateNameCode)
    ensures r.Success? ==>
      exists i ::
        && 0 <= i < |states| && states[i].0 == r.value
        && states[i].1 == StateNameOf(stateNameCode)
        && forall j :: 0 <= j < i ==> states[j].1 != StateNameOf(stateNameCode)
    ensures r.Failure? ==> r.error == NoMatchingState(stateNameCode)
  {
    var i := FirstStateNamed(states, StateNameOf(stateNameCode));
    if i < |states| then Success(states[i].0) else Failure(NoMatchingState(stateNameCode))
  }

  /** A name without underscores survives encoding and decoding. */
  lemma StateNameRoundTrip(stateName: string)
    requires '_' !in stateName
    ensures StateNameOf(StateNameCode(stateName)) == stateName
  {
    var underscored := ReplaceAll(stateName, ' ', '_');
    assert ReplaceFirst("US_" + underscored, "US_", "") == underscored;
    forall i | 0 <= i < |stateName|
      ensures ReplaceAll(underscored, '_', ' ')[i] == stateName[i]
    {
      assert stateName[i] != '_' by { assert stateName[i] in stateName; }
    }
  }

  /** Every listed state code leads back to its own state, when names are unique and have no `_`. */
  lemma StateCodeLookup(states: StateTable, i: nat)
    requires i < |states| && '_' !in states[i].1
    requires forall j :: 0 <= j < i ==> states[j].1 != states[i].1
    ensures GetUSStateCode(states, USStateCodeList(states)[i]) == Success(states[i].0)
  {
    StateNameRoundTrip(states[i].1);
    var k := FirstStateNamed(states, states[i].1);
    assert k == i;
  }

  // ---------------------------------------------------------------------
  // Merging

  /**
   * One chart type of `mergeMobilityJSON`: `uniqBy` by date over A's
   * points then B's, sorted latest date first. A's point wins a date
   * present in both.
   */
  function MergeSeries(aPoints: seq<DailyPoint>, bPoints: seq<DailyPoint>): (r: seq<DailyPoint>)
    ensures StrictlyDescending(r) && DistinctDates(r)
    ensures DateSet(r) == DateSet(aPoints) + DateSet(bPoints)
    ensures |r| <= |aPoints| + |bPoints|
    ensures forall p :: p in r && p.date in DateSet(aPoints) ==> p == aPoints[FirstIndex(aPoints, p.date)]
    ensures forall p :: p in r && p.date !in DateSet(aPoints) ==>
      p.date in DateSet(bPoints) && p == bPoints[FirstIndex(bPoints, p.date)]
  {
    var unique := UniqByDate(aPoints + bPoints);
    MergedIsSortedUnion(aPoints, bPoints);
    MergedFirstArgumentWins(aPoints, bPoints);
    SortByDateDesc(unique)
  }

  lemma MergedIsSortedUnion(aPoints: seq<DailyPoint>, bPoints: seq<DailyPoint>)
    ensures var r := SortByDateDesc(UniqByDate(aPoints + bPoints));
      && StrictlyDescending(r) && DistinctDates(r)
      && DateSet(r) == DateSet(aPoints) + DateSet(bPoints)
      && |r| <= |aPoints| + |bPoints|
  {
    var all := aPoints + bPoints;
    var unique := UniqByDate(all);
    var sorted := SortByDateDesc(unique);
    UniqByDateDistinct(all);
    UniqByDateDates(all);
    DateSetConcat(aPoints, bPoints);
    SortByDateDescSorted(unique);
    SortByDateDescPermutes(unique);
    DateSetOfPermutation(unique, sorted);
    DescendingIsDistinct(sorted);
    assert |sorted| == |unique| by {
      assert |multiset(sorted)| == |multiset(unique)|;
    }
  }

  lemma MergedFirstArgumentWins(aPoints: seq<DailyPoint>, bPoints: seq<DailyPoint>)
    ensures forall p :: p in SortByDateDesc(UniqByDate(aPoints + bPoints)) && p.date in DateSet(aPoints) ==>
      p == aPoints[FirstIndex(aPoints, p.date)]
    ensures forall p :: p in SortByDateDesc(UniqByDate(aPoints + bPoints)) && p.date !in DateSet(aPoints) ==>
      p.date in DateSet(bPoints) && p == bPoints[FirstIndex(bPoints, p.date)]
  {
    var unique := UniqByDate(aPoints + bPoints);
    var sorted := SortByDateDesc(unique);
    SortByDateDescPermutes(unique);
    forall p | p in sorted
      ensures p.date in DateSet(aPoints) ==> p == aPoints[FirstIndex(aPoints, p.date)]
      ensures p.date !in DateSet(aPoints) ==> p.date in DateSet(bPoints) && p == bPoints[FirstIndex(bPoints, p.date)]
    {
      assert p in multiset(sorted);
      MergedPointOrigin(aPoints, bPoints, p);
    }
  }

  /** A point kept from A + B is A's first point of its date, or else B's. */
  lemma MergedPointOrigin(aPoints: seq<DailyPoint>, bPoints: seq<DailyPoint>, p: DailyPoint)
    requires p in UniqByDate(aPoints + bPoints)
    ensures p.date in DateSet(aPoints) ==> p == aPoints[FirstIndex(aPoints, p.date)]
    ensures p.date !in DateSet(aPoints) ==> p.date in DateSet(bPoints) && p == bPoints[FirstIndex(bPoints, p.date)]
  {
    UniqByDateFirstWinsAt(aPoints + bPoints, p);
    FirstOfConcat(aPoints, bPoints, p);
  }

  /** The first point of a date in A + B lies in A when A has the date, else in B. */
  lemma FirstOfConcat(aPoints: seq<DailyPoint>, bPoints: seq<DailyPoint>, p: DailyPoint)
    requires p.date in DateSet(aPoints + bPoints)
    requires p == (aPoints + bPoints)[FirstIndex(aPoints + bPoints, p.date)]
    ensures p.date in DateSet(aPoints) ==> p == aPoints[FirstIndex(aPoints, p.date)]
    ensures p.date !in DateSet(aPoints) ==> p.date in DateSet(bPoints) && p == bPoints[FirstIndex(bPoints, p.date)]
  {
    if p.date in DateSet(aPoints) {
      FirstIndexPrefix(aPoints, bPoints, p.date);
    } else {
      DateSetConcat(aPoints, bPoints);
      FirstIndexSuffix(aPoints, bPoints, p.date);
    }
  }

  /** Merging the same new extraction a second time changes nothing. */
  lemma MergeSeriesIdempotent(aPoints: seq<DailyPoint>, bPoints: seq<DailyPoint>)
    ensures MergeSeries(MergeSeries(aPoints, bPoints), bPoints) == MergeSeries(aPoints, bPoints)
  {
    var merged := MergeSeries(aPoints, bPoints);
    UniqByDateAbsorbs(merged, bPoints);
    UniqByDateOfDistinct(merged);
    SortByDateDescOfSorted(merged);
  }

  /** The chart types as a set. */
  function ChartTypeSet(): set<string>
  {
    set t | t in ChartTypes
  }

  /** The record has a series for every chart type under `jsonKey`. */
  predicate HasAllChartTypes(json: MobilityJson, jsonKey: string)
  {
    jsonKey in json && forall t :: t in ChartTypes ==> t in json[jsonKey]
  }

  /**
   * `mergeMobilityJSON`: a record with the single key `jsonKey`, holding
   * for every chart type the merge of A's and B's series. Reading a
   * missing key or chart type throws in the source.
   */
  method MergeMobilityJson(jsonA: MobilityJson, jsonB: MobilityJson, jsonKey: string)
    returns (r: Result<MobilityJson, IndexError>)
    ensures r.Success? <==> HasAllChartTypes(jsonA, jsonKey) && HasAllChartTypes(jsonB, jsonKey)
    ensures r.Success? ==> r.value.Keys == {jsonKey} && r.value[jsonKey].Keys == ChartTypeSet()
    ensures r.Success? ==> forall t :: t in ChartTypes ==>
      r.value[jsonKey][t].points == MergeSeries(jsonA[jsonKey][t].points, jsonB[jsonKey][t].points)
  {
    var combined: map<string, ChartSeries> := map[];
    for n := 0 to |ChartTypes|
      invariant forall t :: t in combined <==> t in ChartTypes[..n]
      invariant forall t :: t in combined ==>
        HasSeries(jsonA, jsonKey, t) && HasSeries(jsonB, jsonKey, t)
        && combined[t] == MergedChart(jsonA, jsonB, jsonKey, t)
    {
      var chartType := ChartTypes[n];
      assert ChartTypes[..n + 1] == ChartTypes[..n] + [chartType];
      if !HasSeries(jsonA, jsonKey, chartType) || !HasSeries(jsonB, jsonKey, chartType) {
        return Failure(MissingSeries(jsonKey, chartType));
      }
      combined := combined[chartType := MergedChart(jsonA, jsonB, jsonKey, chartType)];
    }
    assert ChartTypes[..|ChartTypes|] == ChartTypes;
    assert combined.Keys == ChartTypeSet();
    assert HasAllChartTypes(jsonA, jsonKey) && HasAllChartTypes(jsonB, jsonKey) by {
      assert ChartTypes[0] in combined;
    }
    return Success(map[jsonKey := combined]);
  }

  /** The record has a series of `chartType` under `jsonKey`. */
  predicate HasSeries(json: MobilityJson, jsonKey: string, chartType: string)
  {
    jsonKey in json && chartType in json[jsonKey]
  }

  /** The merge of A's and B's series of one chart type. */
  function MergedChart(jsonA: MobilityJson, jsonB: MobilityJson, jsonKey: string, chartType: string): ChartSeries
    requires HasSeries(jsonA, jsonKey, chartType) && HasSeries(jsonB, jsonKey, chartType)
  {
    ChartSeries(MergeSeries(jsonA[jsonKey][chartType].points, jsonB[jsonKey][chartType].points))
  }

  /**
   * The chart assignment of `processForAll`: page 1's charts then page 2's,
   * exactly six of them (otherwise the source throws), chart `i` stored
   * under `chartTypes[i]`.
   */
  method AssignCharts(page1Charts: seq<ChartSeries>, page2Charts: seq<ChartSeries>, jsonKey: string)
    returns (r: Result<MobilityJson, IndexError>)
    ensures r.Success? <==> |page1Charts| + |page2Charts| == |ChartTypes|
    ensures r.Failure? ==> r.error == ChartCountMismatch
    ensures r.Success? ==> r.value.Keys == {jsonKey} && r.value[jsonKey].Keys == ChartTypeSet()
    ensures r.Success? ==> forall i :: 0 <= i < |ChartTypes| ==>
      r.value[jsonKey][ChartTypes[i]] == (page1Charts + page2Charts)[i]
  {
    var charts := page1Charts + page2Charts;
    if |charts| != |ChartTypes| {
      return Failure(ChartCountMismatch);
    }
    var series: map<string, ChartSeries> := map[];
    for i := 0 to |charts|
      invariant series.Keys == set t | t in ChartTypes[..i]
      invariant forall k :: 0 <= k < i ==> series[ChartTypes[k]] == charts[k]
    {
      assert ChartTypes[..i + 1] == ChartTypes[..i] + [ChartTypes[i]];
      series := series[ChartTypes[i] := charts[i]];
    }
    assert ChartTypes[..|charts|] == ChartTypes;
    return Success(map[jsonKey := series]);
  }

  /**
   * One geography's update in `processForAll`: assign the six charts, then
   * merge them into the stored record (stored series first, so stored
   * values win on a date collision).
   */
  method UpdateGeography(currentJson: MobilityJson, page1Charts: seq<ChartSeries>,
                         page2Charts: seq<ChartSeries>, jsonKey: string)
    returns (r: Result<MobilityJson, IndexError>)
    ensures r.Success? <==> |page1Charts| + |page2Charts| == |ChartTypes| && HasAllChartTypes(currentJson, jsonKey)
    ensures |page1Charts| + |page2Charts| != |ChartTypes| ==>
      r == Failure(ChartCountMismatch)
    ensures r.Success? ==> r.value.Keys == {jsonKey} && r.value[jsonKey].Keys == ChartTypeSet()
    ensures r.Success? ==> forall i :: 0 <= i < |ChartTypes| ==>
      r.value[jsonKey][ChartTypes[i]].points
        == MergeSeries(currentJson[jsonKey][ChartTypes[i]].points, (page1Charts + page2Charts)[i].points)
  {
    var newJson :- AssignCharts(page1Charts, page2Charts, jsonKey);
    assert HasAllChartTypes(newJson, jsonKey);
    r := MergeMobilityJson(currentJson, newJson, jsonKey);
  }
}
