/**
 * The "Delay Causes" view of the combined dashboard: an optional airport
 * (one of the ten riskiest), an optional airline (among those at that
 * airport) and an optional season narrow the table by exact equality; the
 * remainder is summed per carrier and its five cause counts are shown as
 * shares of total flights.
 */
module CauseView {
  import opened Wrappers
  import Seqs
  import Text
  import opened Records
  import opened Aggregates
  import Ranking

  /** The three select boxes; each starts at None. */
  datatype CauseSelection = CauseSelection(airport: Option<string>, airline: Option<string>, season: Option<Season>)

  /** Python truthiness of a selected string: None and "" apply no filter. */
  predicate Chosen(o: Option<string>) {
    o.Some? && o.value != ""
  }

  /** The airport select box offers no airport, then the ten riskiest airports. */
  function AirportOptions(rows: seq<Record>): seq<Option<string>> {
    var top := Ranking.Top10(rows);
    [None] + seq(|top|, i requires 0 <= i < |top| => Some(top[i]))
  }

  /**
   * At most eleven options: None first, then distinct airports that each
   * have rows and at least the volume threshold of flights.
   */
  lemma AirportOptionsFacts(rows: seq<Record>)
    ensures var opts := AirportOptions(rows);
      && |opts| <= Ranking.TopCount + 1
      && opts[0] == None
      && Seqs.NoDuplicates(opts)
      && forall i :: 1 <= i < |opts| ==>
           && opts[i].Some?
           && (exists r :: r in rows && r.airportName == opts[i].value)
           && Ranking.FlightsAt(rows, opts[i].value) >= Ranking.VolumeThreshold
  {
    var top := Ranking.Top10(rows);
    var opts := AirportOptions(rows);
    assert |top| <= Ranking.TopCount;
    Ranking.Top10Distinct(rows);
    forall i | 1 <= i < |opts|
      ensures opts[i] == Some(top[i - 1])
      ensures (exists r :: r in rows && r.airportName == opts[i].value)
      ensures Ranking.FlightsAt(rows, opts[i].value) >= Ranking.VolumeThreshold
    {
      assert top[i - 1] in top;
      Ranking.Top10Qualified(rows, top[i - 1]);
    }
  }

  /** Sorted distinct carriers, of the whole table or, once an airport is set, of that airport. */
  function AirlineOptions(rows: seq<Record>, airport: Option<string>): seq<string> {
    if airport.None? then Text.SortedStrings(Carriers(rows))
    else Text.SortedStrings(Carriers(Seqs.Filter(rows, (r: Record) => r.airportName == airport.value)))
  }

  /**
   * The airline options are sorted without repeats and name exactly the
   * carriers that have a row, at the chosen airport when one is chosen.
   */
  lemma AirlineOptionsFacts(rows: seq<Record>, airport: Option<string>)
    ensures Seqs.StrictlySorted(AirlineOptions(rows, airport), Text.StrLt)
    ensures forall c :: c in AirlineOptions(rows, airport) <==>
      exists r :: r in rows && r.carrier == c && (airport.Some? ==> r.airportName == airport.value)
  {
    var f := if airport.None? then rows else Seqs.Filter(rows, (r: Record) => r.airportName == airport.value);
    CarriersMembers(f);
  }

  predicate AtAirport(airport: Option<string>, r: Record) {
    airport.Some? && r.airportName == airport.value
  }

  predicate WithAirline(airline: Option<string>, r: Record) {
    airline.Some? && r.carrier == airline.value
  }

  /** `month.isin(season_map[season])`. */
  predicate InSeason(season: Option<Season>, r: Record) {
    season.Some? && r.month in SeasonMonths(season.value)
  }

  function FilterAirport(rows: seq<Record>, airport: Option<string>): seq<Record> {
    if Chosen(airport) then Seqs.Filter(rows, (r: Record) => AtAirport(airport, r)) else rows
  }

  function FilterAirline(rows: seq<Record>, airline: Option<string>): seq<Record> {
    if Chosen(airline) then Seqs.Filter(rows, (r: Record) => WithAirline(airline, r)) else rows
  }

  function FilterCauseSeason(rows: seq<Record>, season: Option<Season>): seq<Record> {
    if season.Some? then Seqs.Filter(rows, (r: Record) => InSeason(season, r)) else rows
  }

  /** `pie_df` after the airport, airline and season filters, in that order. */
  function FilterCause(rows: seq<Record>, sel: CauseSelection): seq<Record> {
    FilterCauseSeason(FilterAirline(FilterAirport(rows, sel.airport), sel.airline), sel.season)
  }

  predicate PassesCause(sel: CauseSelection, r: Record) {
    && (Chosen(sel.airport) ==> r.airportName == sel.airport.value)
    && (Chosen(sel.airline) ==> r.carrier == sel.airline.value)
    && (sel.season.Some? ==> r.month in SeasonMonths(sel.season.value))
  }

  predicate AirportOk(sel: CauseSelection, r: Record) {
    Chosen(sel.airport) ==> AtAirport(sel.airport, r)
  }

  predicate AirlineOk(sel: CauseSelection, r: Record) {
    Chosen(sel.airline) ==> WithAirline(sel.airline, r)
  }

  predicate SeasonOk(sel: CauseSelection, r: Record) {
    sel.season.Some? ==> InSeason(sel.season, r)
  }

  predicate AirportAirlineOk(sel: CauseSelection, r: Record) {
    AirportOk(sel, r) && AirlineOk(sel, r)
  }

  /** The three filters in a row are the single mask `PassesCause`. */
  lemma FilterCauseIsConjunction(rows: seq<Record>, sel: CauseSelection)
    ensures FilterCause(rows, sel) == Seqs.Filter(rows, (r: Record) => PassesCause(sel, r))
  {
    var f1 := FilterAirport(rows, sel.airport);
    Seqs.FilterWhenIs(rows, Chosen(sel.airport), (r: Record) => AtAirport(sel.airport, r), (r: Record) => AirportOk(sel, r));
    var f2 := FilterAirline(f1, sel.airline);
    Seqs.FilterWhenIs(f1, Chosen(sel.airline), (r: Record) => WithAirline(sel.airline, r), (r: Record) => AirlineOk(sel, r));
    Seqs.FilterWhenIs(f2, sel.season.Some?, (r: Record) => InSeason(sel.season, r), (r: Record) => SeasonOk(sel, r));
    Seqs.FilterFuse(rows, (r: Record) => AirportOk(sel, r), (r: Record) => AirlineOk(sel, r), (r: Record) => AirportAirlineOk(sel, r));
    Seqs.FilterFuse(rows, (r: Record) => AirportAirlineOk(sel, r), (r: Record) => SeasonOk(sel, r),
      (r: Record) => PassesCause(sel, r));
  }

  /**
   * The filtered table keeps, in order and with their multiplicity, exactly
   * the rows of the chosen airport (if chosen), of the chosen airline (if
   * chosen) and whose month lies in the chosen season's months (if chosen);
   * in particular each kept row's month is of that season.
   */
  lemma FilterCauseKeeps(rows: seq<Record>, sel: CauseSelection)
    ensures FilterCause(rows, sel) == Seqs.Filter(rows, (r: Record) => PassesCause(sel, r))
    ensures Seqs.IsSubsequence(FilterCause(rows, sel), rows)
    ensures forall r :: r in FilterCause(rows, sel) <==> r in rows && PassesCause(sel, r)
    ensures forall r :: multiset(FilterCause(rows, sel))[r] == if PassesCause(sel, r) then multiset(rows)[r] else 0
    ensures sel.season.Some? ==> forall r :: r in FilterCause(rows, sel) ==>
      ValidMonth(r.month) && SeasonOfMonth(r.month) == sel.season.value
  {
    FilterCauseIsConjunction(rows, sel);
    Seqs.FilterMultiplicity(rows, (r: Record) => PassesCause(sel, r));
    if sel.season.Some? {
      forall r | r in FilterCause(rows, sel) ensures ValidMonth(r.month) && SeasonOfMonth(r.month) == sel.season.value {
        SeasonsPartitionMonths(r.month, sel.season.value);
      }
    }
  }

  /** The cause shares of the view, or None for the "No data available" warning. */
  function CauseBreakdown(rows: seq<Record>, sel: CauseSelection): Option<Shares> {
    CauseShares(GroupSums(FilterCause(rows, sel), CarrierName))
  }

  /**
   * Shares are shown exactly when the filtered rows hold some flight; each
   * is then that cause's count summed over the filtered rows divided by
   * their summed flights.
   */
  lemma CauseBreakdownFacts(rows: seq<Record>, sel: CauseSelection)
    ensures var t := SumRows(FilterCause(rows, sel));
      && (CauseBreakdown(rows, sel).Some? <==> t.arrFlights > 0)
      && (CauseBreakdown(rows, sel).Some? ==> CauseBreakdown(rows, sel).value == SharesOf(t))
  {
    CauseSharesOfRows(FilterCause(rows, sel));
  }
}
