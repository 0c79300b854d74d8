/**
 * The summary table: the filtered rows grouped by country, with new cases and
 * new deaths summed per group. Groups appear in increasing order of country
 * name, as a pandas group-by with its default key sorting gives them.
 */
module Summary {
  import opened Rows
  import opened Filters

  /** One row of the summary table. */
  datatype Group = Group(country: string, newCases: int, newDeaths: int)

  function GroupValue(g: Group, f: Field): int
  {
    match f
    case NewCases => g.newCases
    case NewDeaths => g.newDeaths
  }

  // ------------------------------------------------------ order of group keys

  /** Lexicographic order by code point, as strings compare in Python. */
  predicate LexLess(a: string, b: string)
  {
    if |a| == 0 then |b| > 0
    else if |b| == 0 then false
    else a[0] < b[0] || (a[0] == b[0] && LexLess(a[1..], b[1..]))
  }

  lemma {:induction false} LexIrreflexive(a: string)
    ensures !LexLess(a, a)
  {
    if |a| > 0 {
      LexIrreflexive(a[1..]);
    }
  }

  lemma {:induction false} LexTransitive(a: string, b: string, c: string)
    requires LexLess(a, b) && LexLess(b, c)
    ensures LexLess(a, c)
  {
    if |a| > 0 && |b| > 0 && |c| > 0 && a[0] == b[0] && b[0] == c[0] {
      LexTransitive(a[1..], b[1..], c[1..]);
    }
  }

  lemma {:induction false} LexTotal(a: string, b: string)
    requires a != b
    ensures LexLess(a, b) || LexLess(b, a)
  {
    if |a| > 0 && |b| > 0 && a[0] == b[0] {
      assert a == [a[0]] + a[1..] && b == [b[0]] + b[1..];
      LexTotal(a[1..], b[1..]);
    }
  }

  /** The groups' countries are in strictly increasing order, hence distinct. */
  ghost predicate Sorted(gs: seq<Group>)
  {
    forall i, j :: 0 <= i < j < |gs| ==> LexLess(gs[i].country, gs[j].country)
  }

  // ------------------------------------------------ reference sums and totals

  /** The countries of the rows. */
  function Countries(rows: seq<Row>): set<string>
  {
    if |rows| == 0 then {} else {rows[0].country} + Countries(rows[1..])
  }

  /** The countries of the groups. */
  function Keys(gs: seq<Group>): set<string>
  {
    if |gs| == 0 then {} else {gs[0].country} + Keys(gs[1..])
  }

  /** The sum of a column over exactly the rows of one country. */
  function CountrySum(rows: seq<Row>, c: string, f: Field): int
  {
    if |rows| == 0 then 0
    else (if rows[0].country == c then Measure(rows[0], f) else 0) + CountrySum(rows[1..], c, f)
  }

  /** The sum of a column over all rows. */
  function ColumnTotal(rows: seq<Row>, f: Field): int
  {
    if |rows| == 0 then 0 else Measure(rows[0], f) + ColumnTotal(rows[1..], f)
  }

  /** The sum of a column over all groups. */
  function GroupTotal(gs: seq<Group>, f: Field): int
  {
    if |gs| == 0 then 0 else GroupValue(gs[0], f) + GroupTotal(gs[1..], f)
  }

  /** The value of the first group of country `c`, 0 if there is none. */
  function Lookup(gs: seq<Group>, c: string, f: Field): int
  {
    if |gs| == 0 then 0
    else if gs[0].country == c then GroupValue(gs[0], f)
    else Lookup(gs[1..], c, f)
  }

  // -------------------------------------------------------------- the group-by

  /** The group a row starts when its country has none yet. */
  function Singleton(r: Row): Group
  {
    Group(r.country, r.newCases, r.newDeaths)
  }

  /**
   * Adds one row to the sorted groups: to its country's group if there is one,
   * otherwise as a new group at its place in the order.
   */
  function AddRow(gs: seq<Group>, r: Row): (out: seq<Group>)
    requires Sorted(gs)
    ensures Sorted(out)
    ensures Keys(out) == Keys(gs) + {r.country}
    ensures forall c, f :: Lookup(out, c, f) ==
                           Lookup(gs, c, f) + (if c == r.country then Measure(r, f) else 0)
    ensures forall f :: GroupTotal(out, f) == GroupTotal(gs, f) + Measure(r, f)
  {
    if |gs| == 0 then [Singleton(r)]
    else if gs[0].country == r.country then
      [Group(r.country, gs[0].newCases + r.newCases, gs[0].newDeaths + r.newDeaths)] + gs[1..]
    else if LexLess(r.country, gs[0].country) then
      AbsentBelowFirst(gs, r.country);
      [Singleton(r)] + gs
    else
      LexTotal(r.country, gs[0].country);
      assert gs == [gs[0]] + gs[1..];
      var rest := AddRow(gs[1..], r);
      ConsSorted(gs[0], gs[1..], r.country, rest);
      [gs[0]] + rest
  }

  /** The summary table: every row of the table folded into the groups. */
  function Summarize(rows: seq<Row>): (gs: seq<Group>)
    ensures Sorted(gs)
    ensures Keys(gs) == Countries(rows)
    ensures forall c, f :: Lookup(gs, c, f) == CountrySum(rows, c, f)
    ensures forall f :: GroupTotal(gs, f) == ColumnTotal(rows, f)
  {
    if |rows| == 0 then [] else AddRow(Summarize(rows[1..]), rows[0])
  }

  /** Every country of the table has a group in the summary. */
  lemma SummaryCoversCountries(rows: seq<Row>, gs: seq<Group>)
    requires gs == Summarize(rows)
    ensures forall x :: x in rows ==> exists i :: 0 <= i < |gs| && gs[i].country == x.country
  {
    forall x | x in rows ensures exists i :: 0 <= i < |gs| && gs[i].country == x.country {
      GroupOfRow(rows, gs, x);
    }
  }

  /** Every group of the summary is a country with rows in the table: there is no zero-filled group. */
  lemma SummaryHasNoEmptyGroup(rows: seq<Row>, gs: seq<Group>)
    requires gs == Summarize(rows)
    ensures forall i :: 0 <= i < |gs| ==> exists x :: x in rows && x.country == gs[i].country
  {
    forall i | 0 <= i < |gs| ensures exists x :: x in rows && x.country == gs[i].country {
      RowOfGroup(rows, gs, i);
    }
  }

  /** The summary lists each country at most once. */
  lemma SummaryCountriesDistinct(rows: seq<Row>)
    ensures forall i, j :: 0 <= i < j < |Summarize(rows)| ==>
      Summarize(rows)[i].country != Summarize(rows)[j].country
  {
    var gs := Summarize(rows);
    forall i, j | 0 <= i < j < |gs| ensures gs[i].country != gs[j].country {
      LexIrreflexive(gs[i].country);
    }
  }

  /** Each group's new cases and new deaths are the sums over exactly that country's rows. */
  lemma SummarySums(rows: seq<Row>)
    ensures forall i :: 0 <= i < |Summarize(rows)| ==>
      Summarize(rows)[i].newCases == CountrySum(rows, Summarize(rows)[i].country, NewCases) &&
      Summarize(rows)[i].newDeaths == CountrySum(rows, Summarize(rows)[i].country, NewDeaths)
  {
    var gs := Summarize(rows);
    forall i | 0 <= i < |gs|
      ensures gs[i].newCases == CountrySum(rows, gs[i].country, NewCases)
      ensures gs[i].newDeaths == CountrySum(rows, gs[i].country, NewDeaths)
    {
      LookupAt(gs, i, NewCases);
      LookupAt(gs, i, NewDeaths);
    }
  }

  /** Grouping conserves the column totals of new cases and of new deaths. */
  lemma SummaryConservesTotals(rows: seq<Row>)
    ensures GroupTotal(Summarize(rows), NewCases) == ColumnTotal(rows, NewCases)
    ensures GroupTotal(Summarize(rows), NewDeaths) == ColumnTotal(rows, NewDeaths)
  {
  }

  /**
   * The value a chart plots for a group under the metric radio is that
   * column's sum over the group's rows.
   */
  lemma ChartedValueIsCountrySum(rows: seq<Row>, choice: string, i: int)
    requires 0 <= i < |Summarize(rows)|
    ensures GroupValue(Summarize(rows)[i], MetricField(choice)) ==
            CountrySum(rows, Summarize(rows)[i].country, MetricField(choice))
  {
    LookupAt(Summarize(rows), i, MetricField(choice));
  }

  // ------------------------------------------------------------ helper facts

  /** A country ordered below the first group's is below all of them, so absent. */
  lemma AbsentBelowFirst(gs: seq<Group>, c: string)
    requires Sorted(gs) && |gs| > 0 && LexLess(c, gs[0].country)
    ensures forall g: Group :: g.country == c ==> Sorted([g] + gs)
    ensures c !in Keys(gs)
    ensures forall f :: Lookup(gs, c, f) == 0
  {
    forall g: Group | g.country == c ensures Sorted([g] + gs) {
      var s := [g] + gs;
      forall i, j | 0 <= i < j < |s| ensures LexLess(s[i].country, s[j].country) {
        if i == 0 && j > 1 {
          LexTransitive(c, gs[0].country, gs[j - 1].country);
        }
      }
    }
    forall k | 0 <= k < |gs| ensures gs[k].country != c {
      if k > 0 {
        LexTransitive(c, gs[0].country, gs[k].country);
      }
      LexIrreflexive(c);
    }
    KeysMembership(gs, c);
    LookupAbsent(gs, c);
  }

  /** A group followed by sorted groups whose countries all come after its own is sorted. */
  lemma ConsSorted(g: Group, tail: seq<Group>, c: string, rest: seq<Group>)
    requires Sorted([g] + tail) && Sorted(rest)
    requires LexLess(g.country, c)
    requires Keys(rest) == Keys(tail) + {c}
    ensures Sorted([g] + rest)
  {
    var s := [g] + rest;
    forall i, j | 0 <= i < j < |s| ensures LexLess(s[i].country, s[j].country) {
      if i == 0 {
        var key := rest[j - 1].country;
        KeysMembership(rest, key);
        if key != c {
          KeysMembership(tail, key);
          var k :| 0 <= k < |tail| && tail[k].country == key;
          assert ([g] + tail)[k + 1] == tail[k];
        }
      }
    }
  }

  lemma GroupOfRow(rows: seq<Row>, gs: seq<Group>, x: Row)
    requires Keys(gs) == Countries(rows) && x in rows
    ensures exists i :: 0 <= i < |gs| && gs[i].country == x.country
  {
    var k :| 0 <= k < |rows| && rows[k] == x;
    CountriesMembership(rows, x.country);
    KeysMembership(gs, x.country);
  }

  lemma RowOfGroup(rows: seq<Row>, gs: seq<Group>, i: int)
    requires Keys(gs) == Countries(rows) && 0 <= i < |gs|
    ensures exists x :: x in rows && x.country == gs[i].country
  {
    KeysMembership(gs, gs[i].country);
    CountriesMembership(rows, gs[i].country);
    var k :| 0 <= k < |rows| && rows[k].country == gs[i].country;
    assert rows[k] in rows;
  }

  /** Keys are exactly the countries occurring in the groups. */
  lemma {:induction false} KeysMembership(gs: seq<Group>, c: string)
    ensures c in Keys(gs) <==> exists i :: 0 <= i < |gs| && gs[i].country == c
  {
    if |gs| > 0 {
      KeysMembership(gs[1..], c);
      if c in Keys(gs[1..]) {
        var i :| 0 <= i < |gs| - 1 && gs[1..][i].country == c;
        assert gs[i + 1].country == c;
      }
      if exists i :: 0 <= i < |gs| && gs[i].country == c {
        var i :| 0 <= i < |gs| && gs[i].country == c;
        if i > 0 {
          assert gs[1..][i - 1].country == c;
        }
      }
    }
  }

  /** Countries are exactly the countries occurring in the rows. */
  lemma {:induction false} CountriesMembership(rows: seq<Row>, c: string)
    ensures c in Countries(rows) <==> exists k :: 0 <= k < |rows| && rows[k].country == c
  {
    if |rows| > 0 {
      CountriesMembership(rows[1..], c);
      if c in Countries(rows[1..]) {
        var k :| 0 <= k < |rows| - 1 && rows[1..][k].country == c;
        assert rows[k + 1].country == c;
      }
      if exists k :: 0 <= k < |rows| && rows[k].country == c {
        var k :| 0 <= k < |rows| && rows[k].country == c;
        if k > 0 {
          assert rows[1..][k - 1].country == c;
        }
      }
    }
  }

  /** In sorted groups, looking up a group's country finds that group. */
  lemma {:induction false} LookupAt(gs: seq<Group>, i: int, f: Field)
    requires Sorted(gs) && 0 <= i < |gs|
    ensures Lookup(gs, gs[i].country, f) == GroupValue(gs[i], f)
  {
    if i > 0 {
      LexIrreflexive(gs[i].country);
      assert gs[0].country != gs[i].country;
      LookupAt(gs[1..], i - 1, f);
    }
  }

  lemma {:induction false} LookupAbsent(gs: seq<Group>, c: string)
    requires forall k :: 0 <= k < |gs| ==> gs[k].country != c
    ensures forall f :: Lookup(gs, c, f) == 0
  {
    if |gs| > 0 {
      LookupAbsent(gs[1..], c);
    }
  }
}
