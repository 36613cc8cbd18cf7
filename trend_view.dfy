/**
 * The "Delay Trends" view: a season select box and carrier and airport
 * multi-selects narrow the table; two KPI means summarise what is left; a
 * grouping variable is chosen from the selection sizes; and each trend
 * chart shows the mean of one metric per date, or per (date, group),
 * in ascending date order.
 */
module TrendView {
  import opened Wrappers
  import Seqs
  import Text
  import opened Records

  /** The widget state: "All" or one season, and two multi-selects. */
  datatype TrendSelection = TrendSelection(season: string, carriers: seq<string>, airports: seq<string>)

  predicate SeasonPasses(season: string, r: Record) {
    season == "All" || r.season == season
  }

  /** An empty multi-select puts no restriction on its column. */
  predicate CarrierPasses(carriers: seq<string>, r: Record) {
    |carriers| == 0 || r.carrier in carriers
  }

  predicate AirportPasses(airports: seq<string>, r: Record) {
    |airports| == 0 || r.airportCode in airports
  }

  /** The conjunction of every active predicate of the selection. */
  predicate PassesTrend(sel: TrendSelection, r: Record) {
    SeasonPasses(sel.season, r) && CarrierPasses(sel.carriers, r) && AirportPasses(sel.airports, r)
  }

  function FilterSeason(rows: seq<Record>, season: string): seq<Record> {
    if season != "All" then Seqs.Filter(rows, (r: Record) => r.season == season) else rows
  }

  function FilterCarriers(rows: seq<Record>, carriers: seq<string>): seq<Record> {
    if |carriers| > 0 then Seqs.Filter(rows, (r: Record) => r.carrier in carriers) else rows
  }

  function FilterAirports(rows: seq<Record>, airports: seq<string>): seq<Record> {
    if |airports| > 0 then Seqs.Filter(rows, (r: Record) => r.airportCode in airports) else rows
  }

  /** The three filters one after the other, each on the previous result. */
  function FilterTrend(rows: seq<Record>, sel: TrendSelection): seq<Record> {
    FilterAirports(FilterCarriers(FilterSeason(rows, sel.season), sel.carriers), sel.airports)
  }

  lemma FilterSeasonIsFilter(rows: seq<Record>, season: string)
    ensures FilterSeason(rows, season) == Seqs.Filter(rows, (r: Record) => SeasonPasses(season, r))
  {
    if season == "All" {
      Seqs.FilterKeepsAll(rows, (r: Record) => SeasonPasses(season, r));
    } else {
      Seqs.FilterExt(rows, (r: Record) => r.season == season, (r: Record) => SeasonPasses(season, r));
    }
  }

  lemma FilterCarriersIsFilter(rows: seq<Record>, carriers: seq<string>)
    ensures FilterCarriers(rows, carriers) == Seqs.Filter(rows, (r: Record) => CarrierPasses(carriers, r))
  {
    if |carriers| == 0 {
      Seqs.FilterKeepsAll(rows, (r: Record) => CarrierPasses(carriers, r));
    } else {
      Seqs.FilterExt(rows, (r: Record) => r.carrier in carriers, (r: Record) => CarrierPasses(carriers, r));
    }
  }

  lemma FilterAirportsIsFilter(rows: seq<Record>, airports: seq<string>)
    ensures FilterAirports(rows, airports) == Seqs.Filter(rows, (r: Record) => AirportPasses(airports, r))
  {
    if |airports| == 0 {
      Seqs.FilterKeepsAll(rows, (r: Record) => AirportPasses(airports, r));
    } else {
      Seqs.FilterExt(rows, (r: Record) => r.airportCode in airports, (r: Record) => AirportPasses(airports, r));
    }
  }

  /** Filtering step by step equals one filter by the conjunction. */
  lemma FilterTrendIsConjunction(rows: seq<Record>, sel: TrendSelection)
    ensures FilterTrend(rows, sel) == Seqs.Filter(rows, (r: Record) => PassesTrend(sel, r))
  {
    var ps := (r: Record) => SeasonPasses(sel.season, r);
    var pc := (r: Record) => CarrierPasses(sel.carriers, r);
    var pa := (r: Record) => AirportPasses(sel.airports, r);
    var psc := (r: Record) => SeasonPasses(sel.season, r) && CarrierPasses(sel.carriers, r);
    var all := (r: Record) => PassesTrend(sel, r);
    var s1 := FilterSeason(rows, sel.season);
    FilterSeasonIsFilter(rows, sel.season);
    var s2 := FilterCarriers(s1, sel.carriers);
    FilterCarriersIsFilter(s1, sel.carriers);
    Seqs.FilterFuse(rows, ps, pc, psc);
    assert s2 == Seqs.Filter(rows, psc);
    FilterAirportsIsFilter(s2, sel.airports);
    Seqs.FilterFuse(rows, psc, pa, all);
  }

  /**
   * The filtered table keeps, in their order, exactly the rows that pass
   * every active predicate: the chosen season unless "All", one of the
   * chosen carriers unless none is chosen, one of the chosen airports
   * unless none is chosen.
   */
  lemma FilterTrendKeeps(rows: seq<Record>, sel: TrendSelection)
    ensures Seqs.IsSubsequence(FilterTrend(rows, sel), rows)
    ensures forall r :: r in FilterTrend(rows, sel) <==>
      && r in rows
      && (sel.season != "All" ==> r.season == sel.season)
      && (|sel.carriers| > 0 ==> r.carrier in sel.carriers)
      && (|sel.airports| > 0 ==> r.airportCode in sel.airports)
  {
    FilterTrendIsConjunction(rows, sel);
  }

  /** The initial widget state ("All", no carrier, no airport) keeps the whole table. */
  lemma FilterTrendDefaults(rows: seq<Record>)
    ensures FilterTrend(rows, TrendSelection("All", [], [])) == rows
  {
    var sel := TrendSelection("All", [], []);
    FilterTrendIsConjunction(rows, sel);
    Seqs.FilterKeepsAll(rows, (r: Record) => PassesTrend(sel, r));
  }

  /** The two KPI metrics. */
  datatype TrendKpis = TrendKpis(avgDelay: real, avgRate: real)

  function AvgDelays(rows: seq<Record>): (xs: seq<real>)
    ensures |xs| == |rows| && forall i :: 0 <= i < |rows| ==> xs[i] == rows[i].avgDelayMin
  {
    seq(|rows|, i requires 0 <= i < |rows| => rows[i].avgDelayMin)
  }

  function DelayRates(rows: seq<Record>): (xs: seq<real>)
    ensures |xs| == |rows| && forall i :: 0 <= i < |rows| ==> xs[i] == rows[i].delayRate
  {
    seq(|rows|, i requires 0 <= i < |rows| => rows[i].delayRate)
  }

  /** The column means, or 0 for each when the filtered table is empty. */
  function Kpis(rows: seq<Record>): TrendKpis {
    if |rows| == 0 then TrendKpis(0.0, 0.0)
    else TrendKpis(Seqs.Mean(AvgDelays(rows)), Seqs.Mean(DelayRates(rows)))
  }

  /**
   * Both KPIs are 0 on an empty table; otherwise each is the sum of its
   * column divided by the row count, and the rate KPI lies in [0, 1] when
   * every row's rate does.
   */
  lemma KpisFacts(rows: seq<Record>)
    ensures |rows| == 0 ==> Kpis(rows) == TrendKpis(0.0, 0.0)
    ensures |rows| > 0 ==> Kpis(rows).avgDelay * (|rows| as real) == Seqs.Sum(AvgDelays(rows))
    ensures |rows| > 0 ==> Kpis(rows).avgRate * (|rows| as real) == Seqs.Sum(DelayRates(rows))
    ensures (forall r :: r in rows ==> 0.0 <= r.delayRate <= 1.0) ==> 0.0 <= Kpis(rows).avgRate <= 1.0
  {
    if |rows| > 0 && forall r :: r in rows ==> 0.0 <= r.delayRate <= 1.0 {
      var xs := DelayRates(rows);
      forall i | 0 <= i < |xs| ensures 0.0 <= xs[i] <= 1.0 {
        assert rows[i] in rows;
      }
      Seqs.MeanBounds(xs, 0.0, 1.0);
    }
  }

  /** The column the trend lines are split by, if any. */
  datatype GroupVar = NoGroup | ByCarrier | ByAirport

  function GroupVarOf(carriers: seq<string>, airports: seq<string>): GroupVar {
    if |carriers| > 1 then ByCarrier
    else if |airports| > 1 then ByAirport
    else NoGroup
  }

  /**
   * Carriers take priority: several chosen carriers group by carrier
   * whatever the airports; otherwise several airports group by airport;
   * otherwise there is no grouping. Only the two selection sizes matter.
   */
  lemma GroupVarPriority(c1: seq<string>, a1: seq<string>, c2: seq<string>, a2: seq<string>)
    ensures GroupVarOf(c1, a1) == ByCarrier <==> |c1| > 1
    ensures GroupVarOf(c1, a1) == ByAirport <==> |c1| <= 1 && |a1| > 1
    ensures GroupVarOf(c1, a1) == NoGroup <==> |c1| <= 1 && |a1| <= 1
    ensures |c1| == |c2| && |a1| == |a2| ==> GroupVarOf(c1, a1) == GroupVarOf(c2, a2)
  {
  }

  /** The bucket a row falls into: its date, and its group value when grouped. */
  datatype TrendKey = TrendKey(date: Date, group: Option<string>)

  predicate GroupLt(a: Option<string>, b: Option<string>) {
    match (a, b)
    case (None, Some(_)) => true
    case (Some(x), Some(y)) => Text.StrLt(x, y)
    case _ => false
  }

  /** The order of `groupby(["date", group])`: by date, then by group value. */
  predicate KeyLt(a: TrendKey, b: TrendKey) {
    DateLt(a.date, b.date) || (a.date == b.date && GroupLt(a.group, b.group))
  }

  lemma KeyLtIsStrictTotalOrder()
    ensures Seqs.StrictTotalOrder(KeyLt)
  {
    forall a: TrendKey ensures !KeyLt(a, a) {
      if a.group.Some? {
        Text.StrLtIrreflexive(a.group.value);
      }
    }
    forall a: TrendKey, b: TrendKey, c: TrendKey | KeyLt(a, b) && KeyLt(b, c) ensures KeyLt(a, c) {
      if a.date == b.date && b.date == c.date && a.group.Some? {
        Text.StrLtTransitive(a.group.value, b.group.value, c.group.value);
      }
    }
    forall a: TrendKey, b: TrendKey | a != b ensures KeyLt(a, b) || KeyLt(b, a) {
      if a.date == b.date && a.group.Some? && b.group.Some? {
        Text.StrLtTotal(a.group.value, b.group.value);
      }
    }
  }

  function KeyOfRow(r: Record, g: GroupVar): TrendKey {
    match g
    case NoGroup => TrendKey(r.date, None)
    case ByCarrier => TrendKey(r.date, Some(r.carrier))
    case ByAirport => TrendKey(r.date, Some(r.airportCode))
  }

  function RowKeys(rows: seq<Record>, g: GroupVar): (ks: seq<TrendKey>)
    ensures |ks| == |rows| && forall i :: 0 <= i < |rows| ==> ks[i] == KeyOfRow(rows[i], g)
  {
    seq(|rows|, i requires 0 <= i < |rows| => KeyOfRow(rows[i], g))
  }

  /** The metric a trend chart plots. */
  datatype Metric = AvgDelayMin | DelayRateMetric

  function MetricOf(r: Record, m: Metric): real {
    match m
    case AvgDelayMin => r.avgDelayMin
    case DelayRateMetric => r.delayRate
  }

  /** The metric values of the rows in bucket `k`, in row order. */
  function BucketValues(rows: seq<Record>, g: GroupVar, m: Metric, k: TrendKey): (xs: seq<real>)
    ensures |xs| <= |rows|
    ensures forall x :: x in xs <==> exists r :: r in rows && KeyOfRow(r, g) == k && MetricOf(r, m) == x
  {
    if |rows| == 0 then []
    else
      var rest := BucketValues(rows[1..], g, m, k);
      if KeyOfRow(rows[0], g) == k then [MetricOf(rows[0], m)] + rest else rest
  }

  /** The metric column of some rows, in row order. */
  function MetricColumn(rows: seq<Record>, m: Metric): (xs: seq<real>)
    ensures |xs| == |rows| && forall i :: 0 <= i < |rows| ==> xs[i] == MetricOf(rows[i], m)
  {
    seq(|rows|, i requires 0 <= i < |rows| => MetricOf(rows[i], m))
  }

  predicate InBucket(g: GroupVar, k: TrendKey, r: Record) {
    KeyOfRow(r, g) == k
  }

  /**
   * A bucket's values are exactly the metric column of the rows whose key
   * is that bucket's, every such row counted once and in order.
   */
  lemma {:induction false} BucketValuesIsColumn(rows: seq<Record>, g: GroupVar, m: Metric, k: TrendKey)
    ensures BucketValues(rows, g, m, k) == MetricColumn(Seqs.Filter(rows, (r: Record) => InBucket(g, k, r)), m)
  {
    if |rows| > 0 {
      BucketValuesIsColumn(rows[1..], g, m, k);
      var rest := Seqs.Filter(rows[1..], (r: Record) => InBucket(g, k, r));
      if InBucket(g, k, rows[0]) {
        assert MetricColumn([rows[0]] + rest, m) == [MetricOf(rows[0], m)] + MetricColumn(rest, m);
      }
    }
  }

  /** One point of a trend line. */
  datatype TrendPoint = TrendPoint(key: TrendKey, value: real)

  function PointKeys(pts: seq<TrendPoint>): (ks: seq<TrendKey>)
    ensures |ks| == |pts| && forall i :: 0 <= i < |pts| ==> ks[i] == pts[i].key
  {
    seq(|pts|, i requires 0 <= i < |pts| => pts[i].key)
  }

  /**
   * `groupby(keys)[metric].mean().reset_index().sort_values("date")`: one
   * point per distinct bucket key occurring in the rows, in key order,
   * holding the mean of that bucket's metric.
   */
  function Trend(rows: seq<Record>, g: GroupVar, m: Metric): (pts: seq<TrendPoint>)
    ensures Seqs.StrictlySorted(PointKeys(pts), KeyLt)
    ensures forall k :: k in PointKeys(pts) <==> k in RowKeys(rows, g)
    ensures forall i :: 0 <= i < |pts| ==> pts[i].value == Seqs.Mean(BucketValues(rows, g, m, pts[i].key))
  {
    KeyLtIsStrictTotalOrder();
    var ks := Seqs.SortedUnique(RowKeys(rows, g), KeyLt);
    var pts := seq(|ks|, i requires 0 <= i < |ks| => TrendPoint(ks[i], Seqs.Mean(BucketValues(rows, g, m, ks[i]))));
    assert PointKeys(pts) == ks;
    pts
  }

  /** A key that occurs in the rows has a non-empty bucket. */
  lemma {:induction false} BucketOfRowKey(rows: seq<Record>, g: GroupVar, m: Metric, k: TrendKey)
    requires k in RowKeys(rows, g)
    ensures |BucketValues(rows, g, m, k)| > 0
  {
    var i :| 0 <= i < |rows| && RowKeys(rows, g)[i] == k;
    assert rows[i] in rows;
    assert MetricOf(rows[i], m) in BucketValues(rows, g, m, k);
  }

  /**
   * The trend has one point per distinct key, no two with the same key,
   * each averaging a non-empty bucket; dates never decrease along it; an
   * empty table gives no points; a point lies in [lo, hi] when every row's
   * metric does.
   */
  lemma TrendFacts(rows: seq<Record>, g: GroupVar, m: Metric, lo: real, hi: real)
    ensures Seqs.NoDuplicates(PointKeys(Trend(rows, g, m)))
    ensures var pts := Trend(rows, g, m);
      forall i, j :: 0 <= i < j < |pts| ==> !DateLt(pts[j].key.date, pts[i].key.date)
    ensures |rows| == 0 ==> Trend(rows, g, m) == []
    ensures forall i :: 0 <= i < |Trend(rows, g, m)| ==> |BucketValues(rows, g, m, Trend(rows, g, m)[i].key)| > 0
    ensures (forall r :: r in rows ==> lo <= MetricOf(r, m) <= hi) ==>
      forall i :: 0 <= i < |Trend(rows, g, m)| ==> lo <= Trend(rows, g, m)[i].value <= hi
  {
    var pts := Trend(rows, g, m);
    KeyLtIsStrictTotalOrder();
    Seqs.StrictlySortedNoDuplicates(PointKeys(pts), KeyLt);
    forall i, j | 0 <= i < j < |pts| ensures !DateLt(pts[j].key.date, pts[i].key.date) {
      assert KeyLt(PointKeys(pts)[i], PointKeys(pts)[j]);
    }
    forall i | 0 <= i < |pts| ensures |BucketValues(rows, g, m, pts[i].key)| > 0 {
      assert PointKeys(pts)[i] in RowKeys(rows, g);
      BucketOfRowKey(rows, g, m, pts[i].key);
    }
    if forall r :: r in rows ==> lo <= MetricOf(r, m) <= hi {
      forall i | 0 <= i < |pts| ensures lo <= pts[i].value <= hi {
        var xs := BucketValues(rows, g, m, pts[i].key);
        assert PointKeys(pts)[i] in RowKeys(rows, g);
        BucketOfRowKey(rows, g, m, pts[i].key);
        forall j | 0 <= j < |xs| ensures lo <= xs[j] <= hi {
          assert xs[j] in xs;
        }
        Seqs.MeanBounds(xs, lo, hi);
      }
    }
  }

  /** What the trend tab shows: a warning (None) for an empty selection, otherwise the chart's points. */
  function TrendChart(rows: seq<Record>, sel: TrendSelection, m: Metric): Option<seq<TrendPoint>> {
    var f := FilterTrend(rows, sel);
    if |f| == 0 then None else Some(Trend(f, GroupVarOf(sel.carriers, sel.airports), m))
  }

  /**
   * A chart is drawn exactly when some row passes the filters; when it is
   * split by carrier (or airport), every line belongs to a selected carrier
   * (or airport), and every point's bucket holds only rows that pass.
   */
  lemma TrendChartFacts(rows: seq<Record>, sel: TrendSelection, m: Metric)
    ensures TrendChart(rows, sel, m).Some? <==> exists r :: r in rows && PassesTrend(sel, r)
    ensures TrendChart(rows, sel, m).Some? && GroupVarOf(sel.carriers, sel.airports) == ByCarrier ==>
      forall i :: 0 <= i < |TrendChart(rows, sel, m).value| ==>
        TrendChart(rows, sel, m).value[i].key.group.Some? &&
        TrendChart(rows, sel, m).value[i].key.group.value in sel.carriers
    ensures TrendChart(rows, sel, m).Some? && GroupVarOf(sel.carriers, sel.airports) == ByAirport ==>
      forall i :: 0 <= i < |TrendChart(rows, sel, m).value| ==>
        TrendChart(rows, sel, m).value[i].key.group.Some? &&
        TrendChart(rows, sel, m).value[i].key.group.value in sel.airports
  {
    var f := FilterTrend(rows, sel);
    FilterTrendKeeps(rows, sel);
    if |f| > 0 {
      assert f[0] in f;
    }
    var g := GroupVarOf(sel.carriers, sel.airports);
    if |f| > 0 && g != NoGroup {
      var pts := Trend(f, g, m);
      forall i | 0 <= i < |pts|
        ensures pts[i].key.group.Some?
        ensures g == ByCarrier ==> pts[i].key.group.value in sel.carriers
        ensures g == ByAirport ==> pts[i].key.group.value in sel.airports
      {
        assert PointKeys(pts)[i] in RowKeys(f, g);
        var j :| 0 <= j < |f| && RowKeys(f, g)[j] == pts[i].key;
        assert f[j] in f;
      }
    }
  }
}
