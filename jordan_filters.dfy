/**
 * The sidebar filters of the third dashboard: an airline select box and an
 * airport select box, each headed by "All", and a month range slider from 0
 * to the largest month in the table. Applying a selection narrows the table
 * by carrier, by "City (CODE)" label and by month, in that order.
 */
module JordanFilters {
  import opened Wrappers
  import Seqs
  import Text
  import opened Records

  /** What the widgets return; the outlier toggle is read by no filter. */
  datatype Selections = Selections(airline: string, airport: string, monthLo: int, monthHi: int, capOutliers: bool)

  /** The airport select box: "All", then the sorted distinct labels. */
  function AirportList(rows: seq<Record>): seq<string> {
    ["All"] + Text.SortedStrings(DisplayLabels(rows))
  }

  /** `df["month"].max()`: None on an empty table, where `int()` of the missing value raises. */
  function MaxMonth(rows: seq<Record>): (m: Option<int>)
    ensures m.None? <==> |rows| == 0
    ensures m.Some? ==> (exists r :: r in rows && r.month == m.value) && forall r :: r in rows ==> r.month <= m.value
  {
    if |rows| == 0 then None
    else
      var rest := MaxMonth(rows[1..]);
      assert forall r :: r in rows ==> r == rows[0] || r in rows[1..];
      if rest.None? || rows[0].month >= rest.value then Some(rows[0].month) else rest
  }

  /** The selection with every widget left at its default. */
  function DefaultSelections(rows: seq<Record>): Option<Selections> {
    match MaxMonth(rows)
    case None => None
    case Some(hi) => Some(Selections("All", "All", 0, hi, false))
  }

  predicate HasCarrier(airline: string, r: Record) {
    r.carrier == airline
  }

  predicate HasLabel(airport: string, r: Record) {
    AirportLabel(r.city, r.airportCode) == airport
  }

  predicate InMonths(lo: int, hi: int, r: Record) {
    lo <= r.month <= hi
  }

  /** `apply_filters`: the carrier and label masks only when not "All", the month mask always. */
  function ApplyFilters(rows: seq<Record>, sel: Selections): seq<Record> {
    var byAirline := if sel.airline != "All" then Seqs.Filter(rows, (r: Record) => HasCarrier(sel.airline, r)) else rows;
    var byAirport := if sel.airport != "All" then Seqs.Filter(byAirline, (r: Record) => HasLabel(sel.airport, r)) else byAirline;
    Seqs.Filter(byAirport, (r: Record) => InMonths(sel.monthLo, sel.monthHi, r))
  }

  /** A row passes when each widget either says "All" or matches it, and its month is in range. */
  predicate Passes(sel: Selections, r: Record) {
    && (sel.airline != "All" ==> r.carrier == sel.airline)
    && (sel.airport != "All" ==> AirportLabel(r.city, r.airportCode) == sel.airport)
    && sel.monthLo <= r.month <= sel.monthHi
  }

  predicate AirlineOk(sel: Selections, r: Record) {
    sel.airline != "All" ==> HasCarrier(sel.airline, r)
  }

  predicate LabelOk(sel: Selections, r: Record) {
    sel.airport != "All" ==> HasLabel(sel.airport, r)
  }

  predicate AirlineLabelOk(sel: Selections, r: Record) {
    AirlineOk(sel, r) && LabelOk(sel, r)
  }

  /** The three masks in a row are the single mask "passes every widget". */
  lemma ApplyFiltersIsConjunction(rows: seq<Record>, sel: Selections)
    ensures ApplyFilters(rows, sel) == Seqs.Filter(rows, (r: Record) => Passes(sel, r))
  {
    var f1 := if sel.airline != "All" then Seqs.Filter(rows, (r: Record) => HasCarrier(sel.airline, r)) else rows;
    Seqs.FilterWhenIs(rows, sel.airline != "All", (r: Record) => HasCarrier(sel.airline, r), (r: Record) => AirlineOk(sel, r));
    Seqs.FilterWhenIs(f1, sel.airport != "All", (r: Record) => HasLabel(sel.airport, r), (r: Record) => LabelOk(sel, r));
    Seqs.FilterFuse(rows, (r: Record) => AirlineOk(sel, r), (r: Record) => LabelOk(sel, r), (r: Record) => AirlineLabelOk(sel, r));
    Seqs.FilterFuse(rows, (r: Record) => AirlineLabelOk(sel, r), (r: Record) => InMonths(sel.monthLo, sel.monthHi, r),
      (r: Record) => Passes(sel, r));
  }

  /**
   * The result keeps, in their order and with their multiplicity, exactly
   * the rows that pass every widget.
   */
  lemma ApplyFiltersKeeps(rows: seq<Record>, sel: Selections)
    ensures ApplyFilters(rows, sel) == Seqs.Filter(rows, (r: Record) => Passes(sel, r))
    ensures Seqs.IsSubsequence(ApplyFilters(rows, sel), rows)
    ensures forall r :: r in ApplyFilters(rows, sel) <==> r in rows && Passes(sel, r)
    ensures forall r :: multiset(ApplyFilters(rows, sel))[r] == if Passes(sel, r) then multiset(rows)[r] else 0
  {
    ApplyFiltersIsConjunction(rows, sel);
    Seqs.FilterMultiplicity(rows, (r: Record) => Passes(sel, r));
  }

  /**
   * With the widgets at their defaults a row is dropped only for a month
   * below 0; a table whose months are all at least 0 comes back whole.
   */
  lemma DefaultsKeepAll(rows: seq<Record>)
    ensures DefaultSelections(rows).Some? <==> |rows| > 0
    ensures DefaultSelections(rows).Some? ==>
      forall r :: r in ApplyFilters(rows, DefaultSelections(rows).value) <==> r in rows && r.month >= 0
    ensures DefaultSelections(rows).Some? && (forall r :: r in rows ==> r.month >= 0) ==>
      ApplyFilters(rows, DefaultSelections(rows).value) == rows
  {
    if |rows| > 0 {
      var sel := DefaultSelections(rows).value;
      ApplyFiltersKeeps(rows, sel);
      if forall r :: r in rows ==> r.month >= 0 {
        Seqs.FilterKeepsAll(rows, (r: Record) => InMonths(sel.monthLo, sel.monthHi, r));
      }
    }
  }

  /**
   * Both select boxes start with "All", and the airport box offers exactly
   * "All" and the labels of the table's rows, the labels sorted and
   * unrepeated; "All" is never a real airport's label.
   */
  lemma OptionsFacts(rows: seq<Record>)
    ensures AirlineList(rows)[0] == "All" && AirportList(rows)[0] == "All"
    ensures Seqs.StrictlySorted(AirportList(rows)[1..], Text.StrLt)
    ensures forall l :: l in AirportList(rows) <==> l == "All" || exists r :: r in rows && AirportLabel(r.city, r.airportCode) == l
    ensures forall r :: r in rows ==> AirportLabel(r.city, r.airportCode) != "All"
  {
    DisplayLabelsMembers(rows);
    assert AirportList(rows)[1..] == Text.SortedStrings(DisplayLabels(rows));
    forall r | r in rows ensures AirportLabel(r.city, r.airportCode) != "All" {
      AirportLabelIsNeverAll(r.city, r.airportCode);
    }
  }

  /**
   * Choosing an airport's label keeps only that airport's rows: since no
   * label is "All", the mask always applies, and when airport codes hold no
   * parenthesis the label fixes both city and code.
   */
  lemma AirportChoiceRestricts(rows: seq<Record>, sel: Selections, city: string, code: string)
    requires sel.airport == AirportLabel(city, code)
    requires '(' !in code && forall r :: r in rows ==> '(' !in r.airportCode
    ensures forall r :: r in ApplyFilters(rows, sel) ==> r.city == city && r.airportCode == code
  {
    AirportLabelIsNeverAll(city, code);
    ApplyFiltersKeeps(rows, sel);
    forall r | r in ApplyFilters(rows, sel) ensures r.city == city && r.airportCode == code {
      AirportLabelDeterminesCode(r.city, r.airportCode, city, code);
    }
  }

  /**
   * Every airport the box offers besides "All" matches some row: chosen
   * with airline "All" and a month range covering the table, it leaves a
   * non-empty result.
   */
  lemma OfferedAirportMatches(rows: seq<Record>, airport: string, lo: int, hi: int, capOutliers: bool)
    requires airport in AirportList(rows) && airport != "All"
    requires forall r :: r in rows ==> lo <= r.month <= hi
    ensures |ApplyFilters(rows, Selections("All", airport, lo, hi, capOutliers))| > 0
  {
    var sel := Selections("All", airport, lo, hi, capOutliers);
    OptionsFacts(rows);
    var r :| r in rows && AirportLabel(r.city, r.airportCode) == airport;
    ApplyFiltersKeeps(rows, sel);
    assert r in ApplyFilters(rows, sel);
  }
}
