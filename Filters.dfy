/**
 * The selection the user makes in the sidebar and how it narrows the table:
 * the country multiselect, the metric radio, the date-range picker's default
 * window, the check that the picker returned both endpoints, and the
 * inclusive date filter.
 */
module Filters {
  import opened Rows

  // ---------------------------------------------------------------- countries

  /**
   * The country filter: no selection gives an empty table; otherwise the rows
   * of the selected countries, in table order, each as often as in the table.
   */
  function FilterCountries(rows: seq<Row>, selected: seq<string>): (r: seq<Row>)
    ensures |selected| == 0 ==> r == []
    ensures forall x :: x in r <==> x in rows && x.country in selected
    ensures forall x :: multiset(r)[x] ==
                        (if x.country in selected then multiset(rows)[x] else 0)
    ensures Subsequence(r, rows)
  {
    if |selected| == 0 then [] else Where(rows, (x: Row) => x.country in selected)
  }

  // ------------------------------------------------------------------- metric

  /** The two numeric columns the charts plot. */
  datatype Field = NewCases | NewDeaths

  /** The value of a column in a row. */
  function Measure(r: Row, f: Field): int
  {
    match f
    case NewCases => r.newCases
    case NewDeaths => r.newDeaths
  }

  /** The column chosen by the radio: new cases for "Cases", new deaths for anything else. */
  function MetricField(choice: string): (f: Field)
    ensures f == NewCases <==> choice == "Cases"
    ensures f == NewDeaths <==> choice != "Cases"
  {
    if choice == "Cases" then NewCases else NewDeaths
  }

  // ------------------------------------------------------------ default window

  /** The dates of the rows, in table order. */
  function Dates(rows: seq<Row>): seq<int>
  {
    seq(|rows|, i requires 0 <= i < |rows| => rows[i].date)
  }

  /** The first of the sorted distinct dates: a date present, and no later than any. */
  function Earliest(ds: seq<int>): (m: int)
    requires |ds| > 0
    ensures m in ds
    ensures forall d :: d in ds ==> m <= d
  {
    if |ds| == 1 then ds[0]
    else
      var rest := Earliest(ds[1..]);
      assert ds == [ds[0]] + ds[1..];
      if ds[0] <= rest then ds[0] else rest
  }

  /** The last of the sorted distinct dates: a date present, and no earlier than any. */
  function Latest(ds: seq<int>): (m: int)
    requires |ds| > 0
    ensures m in ds
    ensures forall d :: d in ds ==> d <= m
  {
    if |ds| == 1 then ds[0]
    else
      var rest := Latest(ds[1..]);
      assert ds == [ds[0]] + ds[1..];
      if ds[0] >= rest then ds[0] else rest
  }

  /**
   * The picker's default value and bounds: the earliest and latest date of a
   * non-empty table. Both are dates of the table and every row lies between them.
   */
  function DefaultWindow(rows: seq<Row>): (w: (int, int))
    requires |rows| > 0
    ensures w.0 <= w.1
    ensures exists i :: 0 <= i < |rows| && rows[i].date == w.0
    ensures exists j :: 0 <= j < |rows| && rows[j].date == w.1
    ensures forall x :: x in rows ==> w.0 <= x.date <= w.1
  {
    var ds := Dates(rows);
    var lo, hi := Earliest(ds), Latest(ds);
    assert ds[0] in ds;
    forall x | x in rows ensures lo <= x.date <= hi {
      var k :| 0 <= k < |rows| && rows[k] == x;
      assert ds[k] in ds;
    }
    (lo, hi)
  }

  // --------------------------------------------------------------------- gate

  /**
   * What the date picker hands back: a single date, or a (possibly partial)
   * tuple of dates while the user is still choosing the range.
   */
  datatype Picker = Single(day: int) | Range(days: seq<int>)

  /** The endpoints of a complete range; None stops the run. */
  function Endpoints(p: Picker): (e: Option<(int, int)>)
    ensures e.Some? <==> p.Range? && |p.days| == 2
    ensures e.Some? ==> e.value.0 == p.days[0] && e.value.1 == p.days[1]
  {
    match p
    case Single(_) => None
    case Range(days) => if |days| == 2 then Some((days[0], days[1])) else None
  }

  // -------------------------------------------------------------------- dates

  /**
   * The date filter, inclusive at both ends: the rows dated from `start` to
   * `end`, in table order, each as often as in the table.
   */
  function FilterDates(rows: seq<Row>, start: int, end: int): (r: seq<Row>)
    ensures forall x :: x in r <==> x in rows && start <= x.date <= end
    ensures forall x :: multiset(r)[x] ==
                        (if start <= x.date <= end then multiset(rows)[x] else 0)
    ensures Subsequence(r, rows)
  {
    Where(rows, (x: Row) => start <= x.date && x.date <= end)
  }

  /** A one-day window keeps exactly that day's rows. */
  lemma SingleDayWindow(rows: seq<Row>, day: int)
    ensures FilterDates(rows, day, day) == Where(rows, (x: Row) => x.date == day)
  {
    WhereSameMask(rows, (x: Row) => day <= x.date && x.date <= day, (x: Row) => x.date == day);
  }

  /** A window whose start is after its end keeps nothing. */
  lemma InvertedWindowIsEmpty(rows: seq<Row>, start: int, end: int)
    requires start > end
    ensures FilterDates(rows, start, end) == []
  {
  }

  /** The default window covers the whole table: filtering with it keeps every row. */
  lemma DefaultWindowKeepsAll(rows: seq<Row>)
    requires |rows| > 0
    ensures FilterDates(rows, DefaultWindow(rows).0, DefaultWindow(rows).1) == rows
  {
    var w := DefaultWindow(rows);
    WhereAll(rows, (x: Row) => w.0 <= x.date && x.date <= w.1);
  }

  /** Filtering by country and then by date is one filter by both conditions. */
  lemma CountriesThenDates(rows: seq<Row>, selected: seq<string>, start: int, end: int)
    ensures FilterDates(FilterCountries(rows, selected), start, end) ==
      Where(rows, (x: Row) => x.country in selected && start <= x.date <= end)
  {
    if |selected| == 0 {
      var r := Where(rows, (x: Row) => x.country in selected && start <= x.date <= end);
      if |r| > 0 {
        assert r[0] in r;
      }
      return;
    }
    var p := (x: Row) => x.country in selected;
    var q := (x: Row) => start <= x.date && x.date <= end;
    WhereWhere(rows, p, q);
    WhereSameMask(rows, (x: Row) => p(x) && q(x), (x: Row) => x.country in selected && start <= x.date <= end);
  }

  /** Filtering a second time by the same countries and dates changes nothing. */
  lemma FiltersIdempotent(rows: seq<Row>, selected: seq<string>, start: int, end: int)
    ensures FilterCountries(FilterCountries(rows, selected), selected) == FilterCountries(rows, selected)
    ensures FilterDates(FilterDates(rows, start, end), start, end) == FilterDates(rows, start, end)
  {
    var c := FilterCountries(rows, selected);
    if |selected| > 0 {
      WhereAll(c, (x: Row) => x.country in selected);
    }
    var d := FilterDates(rows, start, end);
    WhereAll(d, (x: Row) => start <= x.date && x.date <= end);
  }
}
