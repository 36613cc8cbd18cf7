/**
 * The stand-alone cause breakdown restricted to 2014-2019: every member
 * takes the table as read and works on its 2014-2019 rows, as the program
 * replaces its table by those rows on load. The ten riskiest airports of
 * those years feed an optional airport select box, the airline
 * options depend on it, the airport and airline filters are
 * case-insensitive substring matches, a season label selects its months by
 * the season word it contains, and the per-carrier sums gain an `on_time`
 * column before the shares are taken with no guard on total flights.
 */
module CauseViewAlt {
  import opened Wrappers
  import Seqs
  import Text
  import opened Records
  import opened Aggregates
  import Ranking

  /** The table as loaded: only the rows of 2014 through 2019, in order. */
  function LoadYears(rows: seq<Record>): (r: seq<Record>)
    ensures Seqs.IsSubsequence(r, rows)
    ensures forall x :: x in r <==> x in rows && FirstYear <= x.year <= LastYear
    ensures forall x :: multiset(r)[x] == if FirstYear <= x.year <= LastYear then multiset(rows)[x] else 0
  {
    Seqs.FilterMultiplicity(rows, (x: Record) => InYears(x));
    Seqs.Filter(rows, (x: Record) => InYears(x))
  }

  /** The airport options: the ten riskiest airports of the loaded years. */
  function AltTop10(rows: seq<Record>): seq<string> {
    Ranking.Top10(LoadYears(rows))
  }

  /**
   * The ranker run on the loaded years: at most ten distinct airports,
   * each with rows in 2014-2019 and at least the volume threshold of
   * flights in those years, by non-increasing delay percentage.
   */
  lemma AltTop10Facts(rows: seq<Record>)
    ensures var top := AltTop10(rows);
      var loaded := LoadYears(rows);
      && |top| <= Ranking.TopCount
      && Seqs.NoDuplicates(top)
      && (forall n :: n in top ==>
            && (exists r :: r in rows && InYears(r) && r.airportName == n)
            && Ranking.FlightsAt(loaded, n) >= Ranking.VolumeThreshold)
      && (forall i, j :: 0 <= i < j < |top| ==>
            Ranking.PctAt(loaded, top[i]) >= Ranking.PctAt(loaded, top[j]))
  {
    Ranking.Top10Correct(LoadYears(rows));
  }

  /**
   * Airline options, taken from the loaded years: sorted distinct carriers
   * at the chosen airport, or, with no airport, the distinct carriers in
   * order of first appearance.
   */
  function AltAirlineOptions(rows: seq<Record>, airport: Option<string>): seq<string> {
    var loaded := LoadYears(rows);
    if airport.Some? then Text.SortedStrings(Carriers(Seqs.Filter(loaded, (r: Record) => r.airportName == airport.value)))
    else Seqs.Distinct(Carriers(loaded))
  }

  /**
   * The options never repeat a carrier and are exactly the carriers with a
   * row in 2014-2019 (at the chosen airport when there is one); they are
   * sorted when an airport is chosen and keep the loaded table's
   * first-appearance order otherwise.
   */
  lemma AltAirlineOptionsFacts(rows: seq<Record>, airport: Option<string>)
    ensures Seqs.NoDuplicates(AltAirlineOptions(rows, airport))
    ensures forall c :: c in AltAirlineOptions(rows, airport) <==>
      exists r :: r in rows && InYears(r) && r.carrier == c && (airport.Some? ==> r.airportName == airport.value)
    ensures airport.Some? ==> Seqs.StrictlySorted(AltAirlineOptions(rows, airport), Text.StrLt)
    ensures airport.None? ==> Seqs.IsSubsequence(AltAirlineOptions(rows, airport), Carriers(LoadYears(rows)))
    ensures airport.None? ==> Seqs.InFirstAppearanceOrder(AltAirlineOptions(rows, airport), Carriers(LoadYears(rows)))
  {
    var loaded := LoadYears(rows);
    var f := if airport.None? then loaded else Seqs.Filter(loaded, (r: Record) => r.airportName == airport.value);
    assert forall r :: r in f <==> r in rows && InYears(r) && (airport.Some? ==> r.airportName == airport.value);
    CarriersMembers(f);
    forall c ensures c in Carriers(f) <==>
      exists r :: r in rows && InYears(r) && r.carrier == c && (airport.Some? ==> r.airportName == airport.value)
    {
      if c in Carriers(f) {
        var r :| r in f && r.carrier == c;
        assert r in rows && InYears(r) && (airport.Some? ==> r.airportName == airport.value);
      }
      if r :| r in rows && InYears(r) && r.carrier == c && (airport.Some? ==> r.airportName == airport.value) {
        assert r in f;
      }
    }
  }

  /** The season select box's labels. */
  const SeasonLabels: seq<string> := ["Winter (Dec-Feb)", "Spring (Mar-May)", "Summer (June-Aug)", "Fall (Sept-Nov)"]

  /** The season named by the first season word a label contains, tried in calendar order. */
  function SeasonOfLabel(name: string): Option<Season> {
    if Text.Contains(name, "Winter") then Some(Winter)
    else if Text.Contains(name, "Spring") then Some(Spring)
    else if Text.Contains(name, "Summer") then Some(Summer)
    else if Text.Contains(name, "Fall") then Some(Fall)
    else None
  }

  /**
   * A label that begins with a season word and holds none of the words
   * tried before it maps to that season.
   */
  lemma SeasonOfWord(name: string, s: Season)
    requires s == Winter ==> Text.IsPrefix("Winter", name)
    requires s != Winter ==> 'W' !in name
    requires s == Spring ==> Text.IsPrefix("Spring", name)
    requires s == Summer ==> 'p' !in name && Text.IsPrefix("Summer", name)
    requires s == Fall ==> 'r' !in name && 'u' !in name && Text.IsPrefix("Fall", name)
    ensures SeasonOfLabel(name) == Some(s)
  {
    if s != Winter {
      Text.LacksCharNotContains(name, "Winter", 0);
    }
    if s == Summer {
      Text.LacksCharNotContains(name, "Spring", 1);
    }
    if s == Fall {
      Text.LacksCharNotContains(name, "Spring", 2);
      Text.LacksCharNotContains(name, "Summer", 1);
    }
  }

  /** Each offered label selects its own season. */
  lemma WinterLabel()
    ensures SeasonOfLabel(SeasonLabels[0]) == Some(Winter)
  {
    SeasonOfWord(SeasonLabels[0], Winter);
  }

  lemma SpringLabel()
    ensures SeasonOfLabel(SeasonLabels[1]) == Some(Spring)
  {
    SeasonOfWord(SeasonLabels[1], Spring);
  }

  lemma SummerLabel()
    ensures SeasonOfLabel(SeasonLabels[2]) == Some(Summer)
  {
    SeasonOfWord(SeasonLabels[2], Summer);
  }

  lemma FallLabel()
    ensures SeasonOfLabel(SeasonLabels[3]) == Some(Fall)
  {
    SeasonOfWord(SeasonLabels[3], Fall);
  }

  /** The three select boxes; None is the placeholder ("Any Airport", "Any Airline", "All Year"). */
  datatype AltSelection = AltSelection(airport: Option<string>, airline: Option<string>, season: Option<string>)

  predicate AirportContains(airport: Option<string>, r: Record) {
    airport.Some? && Text.ContainsIgnoreCase(r.airportName, airport.value)
  }

  predicate AirlineContains(airline: Option<string>, r: Record) {
    airline.Some? && Text.ContainsIgnoreCase(r.carrier, airline.value)
  }

  /** The month filter of a label, when the label names a season. */
  predicate InLabelSeason(season: Option<string>, r: Record) {
    season.Some? && SeasonOfLabel(season.value).Some? && r.month in SeasonMonths(SeasonOfLabel(season.value).value)
  }

  predicate HasLabelSeason(season: Option<string>) {
    season.Some? && SeasonOfLabel(season.value).Some?
  }

  /**
   * `pie_df`: a copy of the loaded years, then the airport, airline and
   * season filters, in that order, each applied only when set.
   */
  function FilterAlt(rows: seq<Record>, sel: AltSelection): seq<Record> {
    var loaded := LoadYears(rows);
    var f1 := if sel.airport.Some? then Seqs.Filter(loaded, (r: Record) => AirportContains(sel.airport, r)) else loaded;
    var f2 := if sel.airline.Some? then Seqs.Filter(f1, (r: Record) => AirlineContains(sel.airline, r)) else f1;
    if HasLabelSeason(sel.season) then Seqs.Filter(f2, (r: Record) => InLabelSeason(sel.season, r)) else f2
  }

  predicate AirportOk(sel: AltSelection, r: Record) {
    sel.airport.Some? ==> AirportContains(sel.airport, r)
  }

  predicate AirlineOk(sel: AltSelection, r: Record) {
    sel.airline.Some? ==> AirlineContains(sel.airline, r)
  }

  predicate SeasonOk(sel: AltSelection, r: Record) {
    HasLabelSeason(sel.season) ==> InLabelSeason(sel.season, r)
  }

  predicate YearsAirportOk(sel: AltSelection, r: Record) {
    InYears(r) && AirportOk(sel, r)
  }

  predicate YearsAirportAirlineOk(sel: AltSelection, r: Record) {
    YearsAirportOk(sel, r) && AirlineOk(sel, r)
  }

  /**
   * A row passes when its year lies in 2014-2019, its airport name contains
   * the chosen airport ignoring case, its carrier contains the chosen
   * airline ignoring case, and its month lies in the season the label
   * names; a None selection, or a label naming no season, imposes nothing.
   */
  predicate PassesAlt(sel: AltSelection, r: Record) {
    && FirstYear <= r.year <= LastYear
    && (sel.airport.Some? ==> Text.ContainsIgnoreCase(r.airportName, sel.airport.value))
    && (sel.airline.Some? ==> Text.ContainsIgnoreCase(r.carrier, sel.airline.value))
    && (HasLabelSeason(sel.season) ==> r.month in SeasonMonths(SeasonOfLabel(sel.season.value).value))
  }

  /** The year restriction and the three filters in a row are the single mask `PassesAlt`. */
  lemma FilterAltIsConjunction(rows: seq<Record>, sel: AltSelection)
    ensures FilterAlt(rows, sel) == Seqs.Filter(rows, (r: Record) => PassesAlt(sel, r))
  {
    var loaded := LoadYears(rows);
    var f1 := if sel.airport.Some? then Seqs.Filter(loaded, (r: Record) => AirportContains(sel.airport, r)) else loaded;
    Seqs.FilterWhenIs(loaded, sel.airport.Some?, (r: Record) => AirportContains(sel.airport, r), (r: Record) => AirportOk(sel, r));
    var f2 := if sel.airline.Some? then Seqs.Filter(f1, (r: Record) => AirlineContains(sel.airline, r)) else f1;
    Seqs.FilterWhenIs(f1, sel.airline.Some?, (r: Record) => AirlineContains(sel.airline, r), (r: Record) => AirlineOk(sel, r));
    Seqs.FilterWhenIs(f2, HasLabelSeason(sel.season), (r: Record) => InLabelSeason(sel.season, r), (r: Record) => SeasonOk(sel, r));
    Seqs.FilterFuse(rows, (x: Record) => InYears(x), (r: Record) => AirportOk(sel, r), (r: Record) => YearsAirportOk(sel, r));
    Seqs.FilterFuse(rows, (r: Record) => YearsAirportOk(sel, r), (r: Record) => AirlineOk(sel, r),
      (r: Record) => YearsAirportAirlineOk(sel, r));
    Seqs.FilterFuse(rows, (r: Record) => YearsAirportAirlineOk(sel, r), (r: Record) => SeasonOk(sel, r),
      (r: Record) => PassesAlt(sel, r));
  }

  /** The filtered table keeps, in order and with their multiplicity, exactly the passing rows of the raw table. */
  lemma FilterAltKeeps(rows: seq<Record>, sel: AltSelection)
    ensures FilterAlt(rows, sel) == Seqs.Filter(rows, (r: Record) => PassesAlt(sel, r))
    ensures Seqs.IsSubsequence(FilterAlt(rows, sel), rows)
    ensures forall r :: r in FilterAlt(rows, sel) <==> r in rows && PassesAlt(sel, r)
    ensures forall r :: multiset(FilterAlt(rows, sel))[r] == if PassesAlt(sel, r) then multiset(rows)[r] else 0
  {
    FilterAltIsConjunction(rows, sel);
    Seqs.FilterMultiplicity(rows, (r: Record) => PassesAlt(sel, r));
  }

  /**
   * Substring matching keeps every row exact matching keeps, in the same
   * order: an airport (or airline) filter by equality gives a subsequence
   * of the case-insensitive substring filter by the same value.
   */
  lemma ExactWithinSubstring(rows: seq<Record>, airport: string, airline: string)
    ensures Seqs.IsSubsequence(
      Seqs.Filter(rows, (r: Record) => r.airportName == airport),
      Seqs.Filter(rows, (r: Record) => AirportContains(Some(airport), r)))
    ensures Seqs.IsSubsequence(
      Seqs.Filter(rows, (r: Record) => r.carrier == airline),
      Seqs.Filter(rows, (r: Record) => AirlineContains(Some(airline), r)))
  {
    forall r: Record | r.airportName == airport ensures AirportContains(Some(airport), r) {
      Text.EqualContainsIgnoreCase(r.airportName, airport);
    }
    Seqs.FilterMonotone(rows, (r: Record) => r.airportName == airport, (r: Record) => AirportContains(Some(airport), r));
    forall r: Record | r.carrier == airline ensures AirlineContains(Some(airline), r) {
      Text.EqualContainsIgnoreCase(r.carrier, airline);
    }
    Seqs.FilterMonotone(rows, (r: Record) => r.carrier == airline, (r: Record) => AirlineContains(Some(airline), r));
  }

  /** One row of the per-carrier table; `onTime` is None until the column is inserted. */
  datatype CarrierRow = CarrierRow(carrier: string, sums: Sums, onTime: Option<int>)

  /** The per-carrier table before the `on_time` column exists. */
  function CarrierTable(gs: seq<Group>): (t: seq<CarrierRow>)
    ensures |t| == |gs|
    ensures forall i :: 0 <= i < |gs| ==> t[i] == CarrierRow(gs[i].key, gs[i].sums, None)
  {
    seq(|gs|, i requires 0 <= i < |gs| => CarrierRow(gs[i].key, gs[i].sums, None))
  }

  function OnTimeOf(s: Sums): int {
    s.arrFlights - s.arrDel15
  }

  /** Every row with its `on_time` column set. */
  function WithOnTime(t: seq<CarrierRow>): (r: seq<CarrierRow>)
    ensures |r| == |t|
  {
    seq(|t|, i requires 0 <= i < |t| => t[i].(onTime := Some(OnTimeOf(t[i].sums))))
  }

  /** `pie_df.insert(1, 'on_time', arr_flights - arr_del15)`, row by row in place. */
  method InsertOnTime(a: array<CarrierRow>)
    modifies a
    ensures a[..] == WithOnTime(old(a[..]))
  {
    for i := 0 to a.Length
      invariant forall k :: 0 <= k < i ==> a[k] == old(a[k]).(onTime := Some(OnTimeOf(old(a[k]).sums)))
      invariant forall k :: i <= k < a.Length ==> a[k] == old(a[k])
    {
      a[i] := a[i].(onTime := Some(OnTimeOf(a[i].sums)));
    }
  }

  /** The per-carrier table of the filtered rows, built in a fresh frame and given its `on_time` column. */
  method CarrierBreakdown(rows: seq<Record>, sel: AltSelection) returns (t: seq<CarrierRow>)
    ensures t == WithOnTime(CarrierTable(GroupSums(FilterAlt(rows, sel), CarrierName)))
  {
    var gs := GroupSums(FilterAlt(rows, sel), CarrierName);
    var table := CarrierTable(gs);
    var a := new CarrierRow[|table|](i requires 0 <= i < |table| => table[i]);
    assert a[..] == table;
    InsertOnTime(a);
    t := a[..];
  }

  function OnTimeTotal(t: seq<CarrierRow>): int {
    if |t| == 0 then 0 else (if t[0].onTime.Some? then t[0].onTime.value else 0) + OnTimeTotal(t[1..])
  }

  function SumsTotal(t: seq<CarrierRow>): Sums {
    if |t| == 0 then Zero else Add(t[0].sums, SumsTotal(t[1..]))
  }

  /** The table's cause totals are the groups' totals, and its `on_time` total is flights less delays. */
  lemma {:induction false} OnTimeTotals(gs: seq<Group>)
    ensures SumsTotal(WithOnTime(CarrierTable(gs))) == TotalOf(gs)
    ensures OnTimeTotal(WithOnTime(CarrierTable(gs))) == TotalOf(gs).arrFlights - TotalOf(gs).arrDel15
  {
    if |gs| > 0 {
      OnTimeTotals(gs[1..]);
      assert WithOnTime(CarrierTable(gs))[1..] == WithOnTime(CarrierTable(gs[1..]));
    }
  }

  /** The five cause shares and the on-time share. */
  datatype AltShares = AltShares(causes: Shares, onTime: real)

  /**
   * Each column total divided by the table's total flights. The dashboard
   * divides without a guard, so the model requires flights.
   */
  function AltSharesOf(t: seq<CarrierRow>): (s: AltShares)
    requires SumsTotal(t).arrFlights > 0
    ensures var n := SumsTotal(t).arrFlights as real;
      s.causes == SharesOf(SumsTotal(t)) && s.onTime * n == OnTimeTotal(t) as real
  {
    var n := SumsTotal(t).arrFlights as real;
    AltShares(SharesOf(SumsTotal(t)), (OnTimeTotal(t) as real) / n)
  }

  lemma OneLessRate(flights: int, delayed: int, x: real)
    requires flights > 0 && x * (flights as real) == (flights - delayed) as real
    ensures x == 1.0 - DelayRate(delayed, flights)
  {
    var n := flights as real;
    var rate := DelayRate(delayed, flights);
    var xn, rn := x * n, rate * n;
    assert rn == delayed as real;
    assert xn + rn == n;
    assert (x + rate) * n == xn + rn;
    assert x + rate == 1.0;
  }

  /**
   * For any rows with some flight, the per-carrier table's cause shares are
   * the row totals over flights and its on-time share is one less their
   * delay rate.
   */
  lemma AltSharesOfRows(f: seq<Record>)
    requires SumRows(f).arrFlights > 0
    ensures var t := WithOnTime(CarrierTable(GroupSums(f, CarrierName)));
      var total := SumRows(f);
      && SumsTotal(t) == total
      && AltSharesOf(t).causes == SharesOf(total)
      && AltSharesOf(t).onTime == 1.0 - DelayRate(total.arrDel15, total.arrFlights)
  {
    var gs := GroupSums(f, CarrierName);
    var t, total := WithOnTime(CarrierTable(gs)), SumRows(f);
    assert SumsTotal(t) == total && OnTimeTotal(t) == total.arrFlights - total.arrDel15 by {
      GroupTotals(f, CarrierName);
      OnTimeTotals(gs);
    }
    AltSharesOfTotals(t);
  }

  /** A table whose `on_time` total is flights less delays has on-time share one less its delay rate. */
  lemma AltSharesOfTotals(t: seq<CarrierRow>)
    requires SumsTotal(t).arrFlights > 0
    requires OnTimeTotal(t) == SumsTotal(t).arrFlights - SumsTotal(t).arrDel15
    ensures AltSharesOf(t).onTime == 1.0 - DelayRate(SumsTotal(t).arrDel15, SumsTotal(t).arrFlights)
  {
    var total := SumsTotal(t);
    OneLessRate(total.arrFlights, total.arrDel15, AltSharesOf(t).onTime);
  }

  /**
   * On the filtered rows of the loaded years with some flight, each cause
   * share is that cause's count summed over the filtered rows divided by
   * their flights, and the on-time share is one less the delay rate of
   * those rows.
   */
  lemma AltSharesFacts(rows: seq<Record>, sel: AltSelection)
    requires SumRows(FilterAlt(rows, sel)).arrFlights > 0
    ensures var t := WithOnTime(CarrierTable(GroupSums(FilterAlt(rows, sel), CarrierName)));
      var total := SumRows(FilterAlt(rows, sel));
      && SumsTotal(t) == total
      && AltSharesOf(t).causes == SharesOf(total)
      && AltSharesOf(t).onTime == 1.0 - DelayRate(total.arrDel15, total.arrFlights)
  {
    AltSharesOfRows(FilterAlt(rows, sel));
  }

  /**
   * Rows outside 2014-2019 never reach the view: a table with no row in
   * those years offers no airline and leaves no row after the filters.
   */
  lemma OutsideYearsIgnored(rows: seq<Record>, airport: Option<string>, sel: AltSelection)
    requires forall r :: r in rows ==> !InYears(r)
    ensures AltAirlineOptions(rows, airport) == []
    ensures FilterAlt(rows, sel) == []
  {
    AltAirlineOptionsFacts(rows, airport);
    FilterAltKeeps(rows, sel);
  }
}
