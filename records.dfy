/**
 * The monthly airline-delay record shared by every dashboard, and the fields
 * derived from it: the first-of-month date, the delay rate, the season of a
 * month and the "City (CODE)" airport label.
 */
module Records {
  import opened Wrappers
  import Text

  /** A first-of-month date; it only serves as a sortable bucket key. */
  datatype Date = Date(year: int, month: int)

  predicate DateLt(a: Date, b: Date) {
    a.year < b.year || (a.year == b.year && a.month < b.month)
  }

  predicate ValidMonth(m: int) {
    1 <= m <= 12
  }

  /**
   * The first and the last month whose first day a nanosecond timestamp can
   * hold: timestamps span 1677-09-21 to 2262-04-11, so 1677-10-01 is the
   * earliest first of a month and 2262-04-01 the latest.
   */
  const EarliestMonth := Date(1677, 10)
  const LatestMonth := Date(2262, 4)

  /** The first of the month exists as a timestamp. */
  predicate Representable(year: int, month: int) {
    ValidMonth(month) && !DateLt(Date(year, month), EarliestMonth) && !DateLt(LatestMonth, Date(year, month))
  }

  /**
   * `pd.to_datetime(year + "-" + month + "-01")`: the conversion raises,
   * modelled as None, on a month outside 1..12 and on a first of the month
   * outside the timestamp range.
   */
  function FirstOfMonth(year: int, month: int): (d: Option<Date>)
    ensures d.Some? <==>
      && 1 <= month <= 12
      && (year > 1677 || (year == 1677 && month >= 10))
      && (year < 2262 || (year == 2262 && month <= 4))
    ensures d.Some? ==> d.value.year == year && d.value.month == month
  {
    if Representable(year, month) then Some(Date(year, month)) else None
  }

  /**
   * The dates that do exist order like their months counted from year
   * zero, so sorting by date is chronological, and two of them are equal
   * exactly when they name the same month.
   */
  lemma FirstOfMonthChronological(y1: int, m1: int, y2: int, m2: int)
    requires FirstOfMonth(y1, m1).Some? && FirstOfMonth(y2, m2).Some?
    ensures DateLt(FirstOfMonth(y1, m1).value, FirstOfMonth(y2, m2).value) <==> 12 * y1 + m1 < 12 * y2 + m2
    ensures FirstOfMonth(y1, m1).value == FirstOfMonth(y2, m2).value <==> 12 * y1 + m1 == 12 * y2 + m2
  {
  }

  /** The years both cause breakdowns restrict the table to, inclusive. */
  const FirstYear := 2014
  const LastYear := 2019

  /**
   * One row of a delay table: one carrier at one airport in one month.
   * `season` is a precomputed column whose origin the dashboards do not
   * show, so it is kept as an opaque label. `date`, `delayRate` and
   * `airportDisplay` are the columns the dashboards add themselves; they
   * carry meaning only once the operation that assigns them has run.
   */
  datatype Record = Record(
    year: int,
    month: int,
    carrier: string,
    airportCode: string,
    airportName: string,
    city: string,
    season: string,
    arrFlights: int,
    arrDel15: int,
    carrierCt: real,
    weatherCt: real,
    nasCt: real,
    securityCt: real,
    lateAircraftCt: real,
    avgDelayMin: real,
    arrDelay: real,
    date: Date,
    delayRate: real,
    airportDisplay: string)

  /** The `carrier_name` column. */
  function Carriers(rows: seq<Record>): (cs: seq<string>)
    ensures |cs| == |rows| && forall i :: 0 <= i < |rows| ==> cs[i] == rows[i].carrier
  {
    seq(|rows|, i requires 0 <= i < |rows| => rows[i].carrier)
  }

  /** A carrier is in the column exactly when some row has it. */
  lemma CarriersMembers(rows: seq<Record>)
    ensures forall c :: c in Carriers(rows) <==> exists r :: r in rows && r.carrier == c
  {
    forall c ensures c in Carriers(rows) <==> exists r :: r in rows && r.carrier == c {
      if c in Carriers(rows) {
        var i :| 0 <= i < |rows| && Carriers(rows)[i] == c;
        assert rows[i] in rows;
      }
      if r :| r in rows && r.carrier == c {
        var i :| 0 <= i < |rows| && rows[i] == r;
        assert Carriers(rows)[i] == c;
      }
    }
  }

  predicate InYears(r: Record) {
    FirstYear <= r.year <= LastYear
  }

  /** Share of arrivals delayed 15 minutes or more, 0 when there were no flights. */
  function DelayRate(arrDel15: int, arrFlights: int): (r: real)
    ensures arrFlights <= 0 ==> r == 0.0
    ensures arrFlights > 0 ==> r * (arrFlights as real) == arrDel15 as real
    ensures 0 <= arrDel15 <= arrFlights ==> 0.0 <= r <= 1.0
  {
    if arrFlights > 0 then (arrDel15 as real) / (arrFlights as real) else 0.0
  }

  /** The airport label the filters offer and match: `city + " (" + airport_code + ")"`. */
  function AirportLabel(city: string, airportCode: string): (shown: string)
    ensures |shown| == |city| + |airportCode| + 3
    ensures shown[|shown| - 1] == ')'
  {
    city + " (" + airportCode + ")"
  }

  /** No airport label is the "All" sentinel, since every label ends in ')'. */
  lemma AirportLabelIsNeverAll(city: string, airportCode: string)
    ensures AirportLabel(city, airportCode) != "All"
  {
    var shown := AirportLabel(city, airportCode);
    assert "All"[2] == 'l';
    assert |shown| == 3 ==> shown[2] == ')';
  }

  /** A label determines its airport code when codes hold no parenthesis. */
  lemma {:induction false} AirportLabelDeterminesCode(c1: string, a1: string, c2: string, a2: string)
    requires '(' !in a1 && '(' !in a2
    requires AirportLabel(c1, a1) == AirportLabel(c2, a2)
    ensures c1 == c2 && a1 == a2
  {
    var l := AirportLabel(c1, a1);
    // The '(' that opens the shorter code would otherwise sit inside the longer one.
    assert l[|l| - |a1| - 2] == '(' && l[|l| - |a2| - 2] == '(';
    assert |a1| == |a2|;
    assert c1 == l[..|c1|] == c2;
    assert a1 == l[|c1| + 2..|l| - 1] == a2;
  }

  datatype Season = Winter | Spring | Summer | Fall

  /** The months of each season, as the cause views' filters list them. */
  function SeasonMonths(s: Season): set<int> {
    match s
    case Winter => {12, 1, 2}
    case Spring => {3, 4, 5}
    case Summer => {6, 7, 8}
    case Fall => {9, 10, 11}
  }

  /** The season of a calendar month, by counting quarters from December. */
  function SeasonOfMonth(m: int): Season
    requires ValidMonth(m)
  {
    [Winter, Spring, Summer, Fall][(m % 12) / 3]
  }

  /** Every month 1..12 lies in exactly one season's set, and no other value lies in any. */
  lemma SeasonsPartitionMonths(m: int, s: Season)
    ensures m in SeasonMonths(s) <==> ValidMonth(m) && SeasonOfMonth(m) == s
  {
  }

  /** The column of "City (CODE)" display labels, in row order. */
  function DisplayLabels(rows: seq<Record>): (ls: seq<string>)
    ensures |ls| == |rows| && forall i :: 0 <= i < |rows| ==> ls[i] == AirportLabel(rows[i].city, rows[i].airportCode)
  {
    seq(|rows|, i requires 0 <= i < |rows| => AirportLabel(rows[i].city, rows[i].airportCode))
  }

  /** A label is in the column exactly when some row has it. */
  lemma DisplayLabelsMembers(rows: seq<Record>)
    ensures forall l :: l in DisplayLabels(rows) <==> exists r :: r in rows && AirportLabel(r.city, r.airportCode) == l
  {
    forall l ensures l in DisplayLabels(rows) <==> exists r :: r in rows && AirportLabel(r.city, r.airportCode) == l {
      if l in DisplayLabels(rows) {
        var i :| 0 <= i < |rows| && DisplayLabels(rows)[i] == l;
        assert rows[i] in rows;
      }
      if r :| r in rows && AirportLabel(r.city, r.airportCode) == l {
        var i :| 0 <= i < |rows| && rows[i] == r;
        assert DisplayLabels(rows)[i] == l;
      }
    }
  }

  /** The airline select box: "All", then the sorted distinct carriers. */
  function AirlineList(rows: seq<Record>): seq<string> {
    ["All"] + Text.SortedStrings(Carriers(rows))
  }
}
