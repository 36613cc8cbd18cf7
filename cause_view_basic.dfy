/**
 * The first cause breakdown: airport-code and carrier select boxes matched
 * as case-insensitive substrings, a season select box matched by name, a
 * final restriction to 2014-2019, and cause shares shown only when the
 * remaining rows hold some flight.
 */
module CauseViewBasic {
  import opened Wrappers
  import Seqs
  import Text
  import opened Records
  import opened Aggregates

  /** The three select boxes; None when a box has no options. */
  datatype BasicSelection = BasicSelection(airport: Option<string>, airline: Option<string>, season: Option<string>)

  /** The `if`/`elif` chain on the season name; any other name applies no month filter. */
  function SeasonOfName(name: string): (s: Option<Season>)
    ensures s.Some? <==> name in {"Winter", "Spring", "Summer", "Fall"}
    ensures name == "Winter" ==> s == Some(Winter)
    ensures name == "Spring" ==> s == Some(Spring)
    ensures name == "Summer" ==> s == Some(Summer)
    ensures name == "Fall" ==> s == Some(Fall)
  {
    if name == "Winter" then Some(Winter)
    else if name == "Spring" then Some(Spring)
    else if name == "Summer" then Some(Summer)
    else if name == "Fall" then Some(Fall)
    else None
  }

  /** The airport filter: the code contains the chosen value ignoring case; no filter on None. */
  predicate CodeOk(airport: Option<string>, r: Record) {
    airport.Some? ==> Text.ContainsIgnoreCase(r.airportCode, airport.value)
  }

  predicate CarrierOk(airline: Option<string>, r: Record) {
    airline.Some? ==> Text.ContainsIgnoreCase(r.carrier, airline.value)
  }

  /** The season filter: the month lies in the named season; no filter without a season name. */
  predicate SeasonOk(season: Option<string>, r: Record) {
    season.Some? && SeasonOfName(season.value).Some? ==> r.month in SeasonMonths(SeasonOfName(season.value).value)
  }

  function ByCode(rows: seq<Record>, airport: Option<string>): seq<Record> {
    if airport.Some? then Seqs.Filter(rows, (r: Record) => CodeOk(airport, r)) else rows
  }

  function ByCarrier(rows: seq<Record>, airline: Option<string>): seq<Record> {
    if airline.Some? then Seqs.Filter(rows, (r: Record) => CarrierOk(airline, r)) else rows
  }

  function BySeason(rows: seq<Record>, season: Option<string>): seq<Record> {
    if season.Some? && SeasonOfName(season.value).Some? then Seqs.Filter(rows, (r: Record) => SeasonOk(season, r))
    else rows
  }

  function ByYears(rows: seq<Record>): seq<Record> {
    Seqs.Filter(rows, (r: Record) => InYears(r))
  }

  /** `pie_df` as the dashboard builds it: airport, airline, season, then the years. */
  function FilterBasic(rows: seq<Record>, sel: BasicSelection): seq<Record> {
    ByYears(BySeason(ByCarrier(ByCode(rows, sel.airport), sel.airline), sel.season))
  }

  /** The same filters with the year restriction moved to the front. */
  function FilterBasicYearsFirst(rows: seq<Record>, sel: BasicSelection): seq<Record> {
    BySeason(ByCarrier(ByCode(ByYears(rows), sel.airport), sel.airline), sel.season)
  }

  /** The conjunction of the active selections and the years. */
  predicate PassesBasic(sel: BasicSelection, r: Record) {
    CodeOk(sel.airport, r) && CarrierOk(sel.airline, r) && SeasonOk(sel.season, r) && InYears(r)
  }

  predicate CodeCarrierOk(sel: BasicSelection, r: Record) {
    CodeOk(sel.airport, r) && CarrierOk(sel.airline, r)
  }

  predicate SelectionOk(sel: BasicSelection, r: Record) {
    CodeCarrierOk(sel, r) && SeasonOk(sel.season, r)
  }

  lemma ByCodeIsFilter(rows: seq<Record>, airport: Option<string>)
    ensures ByCode(rows, airport) == Seqs.Filter(rows, (r: Record) => CodeOk(airport, r))
  {
    if airport.None? {
      Seqs.FilterKeepsAll(rows, (r: Record) => CodeOk(airport, r));
    }
  }

  lemma ByCarrierIsFilter(rows: seq<Record>, airline: Option<string>)
    ensures ByCarrier(rows, airline) == Seqs.Filter(rows, (r: Record) => CarrierOk(airline, r))
  {
    if airline.None? {
      Seqs.FilterKeepsAll(rows, (r: Record) => CarrierOk(airline, r));
    }
  }

  lemma BySeasonIsFilter(rows: seq<Record>, season: Option<string>)
    ensures BySeason(rows, season) == Seqs.Filter(rows, (r: Record) => SeasonOk(season, r))
  {
    if !(season.Some? && SeasonOfName(season.value).Some?) {
      Seqs.FilterKeepsAll(rows, (r: Record) => SeasonOk(season, r));
    }
  }

  /** The dashboard's order of filters is one filter by the conjunction. */
  lemma FilterBasicIsConjunction(rows: seq<Record>, sel: BasicSelection)
    ensures FilterBasic(rows, sel) == Seqs.Filter(rows, (r: Record) => PassesBasic(sel, r))
  {
    var f1 := ByCode(rows, sel.airport);
    ByCodeIsFilter(rows, sel.airport);
    var f2 := ByCarrier(f1, sel.airline);
    ByCarrierIsFilter(f1, sel.airline);
    Seqs.FilterFuse(rows, (r: Record) => CodeOk(sel.airport, r), (r: Record) => CarrierOk(sel.airline, r),
      (r: Record) => CodeCarrierOk(sel, r));
    BySeasonIsFilter(f2, sel.season);
    Seqs.FilterFuse(rows, (r: Record) => CodeCarrierOk(sel, r), (r: Record) => SeasonOk(sel.season, r),
      (r: Record) => SelectionOk(sel, r));
    Seqs.FilterFuse(rows, (r: Record) => SelectionOk(sel, r), (r: Record) => InYears(r),
      (r: Record) => PassesBasic(sel, r));
  }

  predicate YearsCodeOk(sel: BasicSelection, r: Record) {
    InYears(r) && CodeOk(sel.airport, r)
  }

  predicate YearsCodeCarrierOk(sel: BasicSelection, r: Record) {
    YearsCodeOk(sel, r) && CarrierOk(sel.airline, r)
  }

  /** The years-first order is the same conjunction. */
  lemma FilterYearsFirstIsConjunction(rows: seq<Record>, sel: BasicSelection)
    ensures FilterBasicYearsFirst(rows, sel) == Seqs.Filter(rows, (r: Record) => PassesBasic(sel, r))
  {
    var f0 := ByYears(rows);
    var f1 := ByCode(f0, sel.airport);
    ByCodeIsFilter(f0, sel.airport);
    Seqs.FilterFuse(rows, (r: Record) => InYears(r), (r: Record) => CodeOk(sel.airport, r),
      (r: Record) => YearsCodeOk(sel, r));
    var f2 := ByCarrier(f1, sel.airline);
    ByCarrierIsFilter(f1, sel.airline);
    Seqs.FilterFuse(rows, (r: Record) => YearsCodeOk(sel, r), (r: Record) => CarrierOk(sel.airline, r),
      (r: Record) => YearsCodeCarrierOk(sel, r));
    BySeasonIsFilter(f2, sel.season);
    Seqs.FilterFuse(rows, (r: Record) => YearsCodeCarrierOk(sel, r), (r: Record) => SeasonOk(sel.season, r),
      (r: Record) => PassesBasic(sel, r));
  }

  /**
   * The filters commute: restricting the years last, as the view does,
   * leaves the same rows in the same order as restricting them first.
   */
  lemma YearsLastEqualsYearsFirst(rows: seq<Record>, sel: BasicSelection)
    ensures FilterBasic(rows, sel) == FilterBasicYearsFirst(rows, sel)
  {
    FilterBasicIsConjunction(rows, sel);
    FilterYearsFirstIsConjunction(rows, sel);
  }

  /**
   * The filtered table keeps, in order, exactly the rows of 2014-2019
   * whose airport code and carrier contain the chosen values ignoring case
   * and whose month lies in the named season.
   */
  lemma FilterBasicKeeps(rows: seq<Record>, sel: BasicSelection)
    ensures Seqs.IsSubsequence(FilterBasic(rows, sel), rows)
    ensures forall r :: r in FilterBasic(rows, sel) <==>
      && r in rows
      && 2014 <= r.year <= 2019
      && (sel.airport.Some? ==> Text.ContainsIgnoreCase(r.airportCode, sel.airport.value))
      && (sel.airline.Some? ==> Text.ContainsIgnoreCase(r.carrier, sel.airline.value))
      && (sel.season.Some? && SeasonOfName(sel.season.value).Some? ==>
            r.month in SeasonMonths(SeasonOfName(sel.season.value).value))
  {
    FilterBasicIsConjunction(rows, sel);
  }

  /** The shares of the view, or None for "No data available for this selection". */
  function BasicBreakdown(rows: seq<Record>, sel: BasicSelection): Option<Shares> {
    CauseShares(GroupSums(FilterBasic(rows, sel), CarrierName))
  }

  /**
   * Shares appear exactly when the filtered rows hold some flight, and
   * each is then that cause's count summed over them divided by their
   * flights.
   */
  lemma BasicBreakdownFacts(rows: seq<Record>, sel: BasicSelection)
    ensures var t := SumRows(FilterBasic(rows, sel));
      && (BasicBreakdown(rows, sel).Some? <==> t.arrFlights > 0)
      && (BasicBreakdown(rows, sel).Some? ==> BasicBreakdown(rows, sel).value == SharesOf(t))
  {
    CauseSharesOfRows(FilterBasic(rows, sel));
  }
}
