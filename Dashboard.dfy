/**
 * One top-to-bottom run of the dashboard script on a fetched table and the
 * current sidebar inputs: rewrite the transmission column, keep the selected
 * countries, offer the default date window, stop unless both endpoints were
 * picked, keep the picked dates, and group the result by country.
 */
module Dashboard {
  import opened Rows
  import opened Transmission
  import opened Filters
  import opened Summary

  /** What a run ends with. */
  datatype Outcome =
    | NoData
      // the country filter left nothing: no date picker and no charts
    | AwaitingRange(low: int, high: int)
      // the picker was offered this default window but did not return two dates: the run stops
    | Charts(filtered: seq<Row>, summary: seq<Group>, metric: Field)
      // the tables the charts are drawn from, and the column most of them plot

  /**
   * The script's data path. The fetched table, the multiselect, the radio and
   * whatever the date picker returns are inputs; the table is narrowed step by
   * step as the script rebinds its data frame.
   */
  method Refresh(fetched: seq<Row>, selected: seq<string>, choice: string, picked: Picker)
    returns (out: Outcome)
    ensures var byCountry := FilterCountries(ClassifyColumn(fetched), selected);
      (out.NoData? <==> byCountry == []) &&
      (out.AwaitingRange? <==> byCountry != [] && Endpoints(picked).None?) &&
      (byCountry != [] && out.AwaitingRange? ==> (out.low, out.high) == DefaultWindow(byCountry))
    ensures out.Charts? ==>
      picked.Range? && |picked.days| == 2 &&
      var table, start, end := ClassifyColumn(fetched), picked.days[0], picked.days[1];
      (forall x :: x in out.filtered <==>
         x in table && x.country in selected && start <= x.date <= end) &&
      (forall x :: multiset(out.filtered)[x] ==
         (if x.country in selected && start <= x.date <= end then multiset(table)[x] else 0)) &&
      Subsequence(out.filtered, table) &&
      (forall x :: x in out.filtered ==> exists c :: x.transmission == Text(Label(c))) &&
      out.summary == Summarize(out.filtered) &&
      out.metric == MetricField(choice)
    ensures var byCountry := FilterCountries(ClassifyColumn(fetched), selected);
      byCountry != [] && Endpoints(picked) == Some(DefaultWindow(byCountry)) ==>
        out.Charts? && out.filtered == byCountry
  {
    var table := ClassifyColumn(fetched);
    var filtered := FilterCountries(table, selected);
    var metric := MetricField(choice);
    if filtered == [] {
      return NoData;
    }
    var window := DefaultWindow(filtered);
    var range := Endpoints(picked);
    if range.None? {
      return AwaitingRange(window.0, window.1);
    }
    var (start, end) := range.value;
    ghost var byCountry := filtered;
    filtered := FilterDates(filtered, start, end);
    if range == Some(window) {
      DefaultWindowKeepsAll(byCountry);
    }
    CountriesThenDates(table, selected, start, end);
    var summary := Summarize(filtered);
    return Charts(filtered, summary, metric);
  }

  /**
   * The rows of the worked example, two Austrian days and one Polish day, all
   * with the transmission cell `t`.
   */
  function ExampleRows(t: Cell): seq<Row>
  {
    [Row("Austria", 0, 5, 0, 1, t, 1), Row("Austria", 0, 3, 0, 0, t, 2),
     Row("Poland", 0, 7, 0, 2, t, 1)]
  }

  /** The column rewrite turns the example's NULL transmissions into "Other". */
  lemma ExampleClassified()
    ensures ClassifyColumn(ExampleRows(Null)) == ExampleRows(Text("Other"))
  {
    NullIsOther();
  }

  /** Selecting Austria keeps its two rows and drops Poland's. */
  lemma ExampleCountryFilter(t: Cell)
    ensures FilterCountries(ExampleRows(t), ["Austria"]) == ExampleRows(t)[..2]
  {
    var rows := ExampleRows(t);
    assert rows[2].country != "Austria" by { assert rows[2].country[0] == 'P'; }
    var inAustria := (x: Row) => x.country in ["Austria"];
    assert Where(rows[3..], inAustria) == [];
    assert Where(rows[2..], inAustria) == [];
    assert Where(rows[1..], inAustria) == [rows[1]];
  }

  /** The window of both days keeps both Austrian rows. */
  lemma ExampleDateFilter(t: Cell)
    ensures FilterDates(ExampleRows(t)[..2], 1, 2) == ExampleRows(t)[..2]
  {
  }

  /** The default window of the two Austrian rows runs from day 1 to day 2. */
  lemma ExampleDefaultWindow(t: Cell)
    ensures DefaultWindow(ExampleRows(t)[..2]) == (1, 2)
  {
    var rows := ExampleRows(t)[..2];
    assert rows[0] in rows && rows[1] in rows;
  }

  /**
   * On the fetched example, selecting Austria leaves the two classified
   * Austrian rows, and the picker offers days 1 to 2 for them.
   */
  lemma ExampleSelection()
    ensures FilterCountries(ClassifyColumn(ExampleRows(Null)), ["Austria"]) ==
      ExampleRows(Text("Other"))[..2]
    ensures DefaultWindow(ExampleRows(Text("Other"))[..2]) == (1, 2)
  {
    ExampleClassified();
    ExampleCountryFilter(Text("Other"));
    ExampleDefaultWindow(Text("Other"));
  }

  /** The Austrian rows sum to one group with 8 new cases and 1 new death. */
  lemma ExampleSummary(t: Cell)
    ensures Summarize(ExampleRows(t)[..2]) == [Group("Austria", 8, 1)]
  {
  }

  /**
   * A whole run on the example: Austria selected, the deaths metric, and both
   * days picked. The charts are drawn from the two classified Austrian rows,
   * summed into one group.
   */
  method ExampleRun() returns (out: Outcome)
    ensures out == Charts(ExampleRows(Text("Other"))[..2], [Group("Austria", 8, 1)], NewDeaths)
  {
    ExampleSelection();
    assert Endpoints(Range([1, 2])) == Some((1, 2));
    out := Refresh(ExampleRows(Null), ["Austria"], "Deaths", Range([1, 2]));
    assert out.filtered == ExampleRows(Text("Other"))[..2];
    ExampleSummary(Text("Other"));
    assert MetricField("Deaths") == NewDeaths;
  }

  /**
   * A run on the example while the picker holds only its first date: the run
   * stops, offering the default window from day 1 to day 2.
   */
  method ExampleRunAwaiting() returns (out: Outcome)
    ensures out == AwaitingRange(1, 2)
  {
    ExampleSelection();
    out := Refresh(ExampleRows(Null), ["Austria"], "Deaths", Range([1]));
  }
}
