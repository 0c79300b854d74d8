# COVID dashboard data path, modelled in Dafny

The dashboard is a single Streamlit script. It fetches the WHO situation reports
(country, total and new cases, total and new deaths, transmission
classification, report date) and lets the user choose countries, a metric and a
date range. It then draws four charts. This project models the data logic
between the fetch and the charts:

- **Transmission classifier** (`Transmission`). The raw classification is
  lower-cased and compared with the prefixes `clus`, `com`, `loc` and `pen`,
  giving Cluster, Community, Local or Pending. Everything else is Other,
  including NULL, which Python prints as `None`. The column is then rewritten
  with the category's name.
- **Country filter** (`Filters.FilterCountries`). An empty selection gives an
  empty table. Otherwise the filter keeps the rows of the selected countries in
  table order.
- **Metric radio** (`Filters.MetricField`). `"Cases"` selects `new_cases`; any
  other choice selects `new_deaths`.
- **Date picker** (`Filters.DefaultWindow`, `Filters.Endpoints`). The picker's
  default value and bounds are the earliest and latest date of the
  country-filtered table. The run goes on only when the picker returns exactly
  two dates.
- **Date filter** (`Filters.FilterDates`). It keeps rows dated from the start to
  the end, inclusive at both ends.
- **Group-by** (`Summary.Summarize`). One group per country of the filtered
  table, with new cases and new deaths summed separately. Groups come in
  increasing order of country name, which is the default key order of a pandas
  group-by.
- **One run of the script** (`Dashboard.Refresh`). A method that threads the
  table through these steps, the way the script rebinds its data frame.

Every mask filter is one generic function, `Rows.Where`. It is proved once to
keep exactly the rows its mask accepts, each as often as in the input, and in
input order. Dates are ordinal day numbers, because only their order is used.

Two behaviours of the script are worth stating because they are easy to miss:

- The script does not check that the picked start is no later than the end. A
  range whose start comes after its end keeps no rows
  (`Filters.InvertedWindowIsEmpty`).
- The group-by sorts its groups by country name, and the model does the same.

## Model

| member | source | states |
|---|---|---|
| `Rows.Where` | covid_dashboard.py:113-116 | A boolean-mask selection keeps a row iff the mask holds of it. Every kept row occurs as often as in the input and no other row occurs. The result is an order-preserving subsequence of the input. |
| `Rows.WhereWhere` | covid_dashboard.py:59-116 | Two successive mask filters are the same as one filter by the conjunction of the masks. |
| `Transmission.Classify` | covid_dashboard.py:40-44 | The chain of the four prefix tests on the lower-cased text: the result is a named category only when the text starts with that category's prefix, and Other exactly when it starts with none of the four. |
| `Transmission.ClassifyCell` | covid_dashboard.py:39-44 | The lambda applied to a cell: a NULL cell is Other, because its text is `None`, and a text cell is classified by its text. |
| `Transmission.ClassifyIsPrefixRule` | covid_dashboard.py:39-45 | A value is Cluster, Community, Local or Pending iff its lower-cased form starts with `clus`, `com`, `loc` or `pen` respectively. It is Other iff it starts with none of them. The order of the tests therefore does not matter. |
| `Transmission.PrefixesExclusive` | covid_dashboard.py:40-43 | No lower-cased value starts with the prefixes of two different categories. |
| `Transmission.ClassifyCaseInsensitive` | covid_dashboard.py:40-44 | A value and its lower-cased form fall in the same category. |
| `Transmission.LowerIdempotent` | covid_dashboard.py:40 | Lower-casing twice is the same as lower-casing once. |
| `Transmission.ClassifyLabel` | covid_dashboard.py:39-45 | The name written for each category classifies back into that category. |
| `Transmission.ClassifyIdempotent` | covid_dashboard.py:39-45 | Classifying an already classified value gives the same category. |
| `Transmission.NullIsOther` | covid_dashboard.py:40-44 | A NULL cell, printed as `None`, is Other. |
| `Transmission.ClassifyColumn` | covid_dashboard.py:39-45 | The column rewrite keeps every row in place with all other fields unchanged. Each transmission cell becomes the name of its category, one of the five. |
| `Transmission.ClassifyColumnIdempotent` | covid_dashboard.py:39-45 | Rewriting an already rewritten column leaves it unchanged. |
| `Transmission.ClassifyExamples` | covid_dashboard.py:39-45 | `CLUSTER`, `clus` and `Clustered` are Cluster. |
| `Transmission.ClassifyNamedExamples` | covid_dashboard.py:39-45 | `COMMUNITY_SPREAD` is Community, `Local transmission` is Local and `pending` is Pending. |
| `Transmission.ClassifyOtherExamples` | covid_dashboard.py:39-45 | `xyz` and the empty string are Other. |
| `Filters.FilterCountries` | covid_dashboard.py:58-61 | An empty selection gives the empty table. Otherwise the result holds exactly the rows whose country is selected, each as often as in the table, in table order. |
| `Filters.MetricField` | covid_dashboard.py:70 | The charted column is new cases iff the radio reads `"Cases"`, and new deaths otherwise. |
| `Filters.Earliest` | covid_dashboard.py:84-87 | The first sorted distinct date is a date of the table and no later than any other. |
| `Filters.Latest` | covid_dashboard.py:84-88 | The last sorted distinct date is a date of the table and no earlier than any other. |
| `Filters.DefaultWindow` | covid_dashboard.py:84-88 | For a non-empty table, the default window's ends are dates of the table, with low <= high, and every row's date lies between them. |
| `Filters.Endpoints` | covid_dashboard.py:101-106 | The picker yields endpoints iff it returned a tuple of exactly two dates. The endpoints are those two dates in order. |
| `Filters.FilterDates` | covid_dashboard.py:113-116 | A row survives iff start <= date <= end, inclusive at both ends. Survivors keep their multiplicity and their order. |
| `Filters.SingleDayWindow` | covid_dashboard.py:113-116 | A window whose start equals its end keeps exactly that day's rows. |
| `Filters.InvertedWindowIsEmpty` | covid_dashboard.py:113-116 | A window whose start is after its end keeps no row. |
| `Filters.DefaultWindowKeepsAll` | covid_dashboard.py:84-116 | Filtering a non-empty table by its default window returns the table unchanged. |
| `Filters.CountriesThenDates` | covid_dashboard.py:58-116 | The country filter followed by the date filter keeps exactly the rows of a selected country dated inside the window. |
| `Filters.FiltersIdempotent` | covid_dashboard.py:58-116 | Applying the country filter, or the date filter, a second time with the same inputs changes nothing. |
| `Summary.AddRow` | covid_dashboard.py:118-121 | Adding a row to sorted groups keeps them sorted and adds its country to the keys. The row's new cases and new deaths go to its country's group only, and each column total grows by the row's value. |
| `Summary.Summarize` | covid_dashboard.py:118-121 | The summary is sorted by country and its keys are exactly the table's countries. Each country's group value is the sum over that country's rows, and the column totals are conserved. |
| `Summary.SummaryCoversCountries` | covid_dashboard.py:118-121 | Every country present in the table has a group. |
| `Summary.SummaryHasNoEmptyGroup` | covid_dashboard.py:118-121 | Every group's country has at least one row in the table, so there is no zero-filled group. |
| `Summary.SummaryCountriesDistinct` | covid_dashboard.py:118-121 | No country has two groups. |
| `Summary.SummarySums` | covid_dashboard.py:118-121 | Each group's new cases and new deaths equal the sums over exactly that country's rows. |
| `Summary.SummaryConservesTotals` | covid_dashboard.py:118-121 | The summary's new-case and new-death totals equal the table's. |
| `Summary.ChartedValueIsCountrySum` | covid_dashboard.py:118-128 | The value the bar chart plots for a group under the chosen metric is the sum of that column over the group's rows. |
| `Dashboard.Refresh` | covid_dashboard.py:39-121 | No charts when the country filter leaves nothing. When the picker did not return two dates, the run stops after offering the default window. Otherwise the charted table holds exactly the classified rows of a selected country inside the picked window, as a subsequence with multiplicities kept, and each row's transmission is one of the five names. The summary is the group-by of that table and the metric is the radio's. With the default window the table is the country-filtered one. |
| `Dashboard.ExampleClassified` | covid_dashboard.py:39-45 | Rewriting the example's column turns every NULL transmission into `Other`. |
| `Dashboard.ExampleCountryFilter` | covid_dashboard.py:58-61 | Selecting Austria from two Austrian rows and one Polish row keeps the two Austrian rows, whatever their transmission. |
| `Dashboard.ExampleDateFilter` | covid_dashboard.py:113-116 | A window covering both Austrian days keeps both rows. |
| `Dashboard.ExampleDefaultWindow` | covid_dashboard.py:84-88 | The default window of the two Austrian rows runs from day 1 to day 2. |
| `Dashboard.ExampleSelection` | covid_dashboard.py:39-88 | On the fetched example, selecting Austria leaves the two classified Austrian rows, with the default window from day 1 to day 2. |
| `Dashboard.ExampleSummary` | covid_dashboard.py:118-121 | The two Austrian rows with 5 and 3 new cases give one group with 8 new cases and 1 new death. |
| `Dashboard.ExampleRun` | covid_dashboard.py:39-121 | A whole run with Austria selected, the deaths metric and both days picked draws the charts from the two classified Austrian rows, summed to one group of 8 new cases and 1 new death, with new deaths charted. |
| `Dashboard.ExampleRunAwaiting` | covid_dashboard.py:84-106 | A run whose picker holds only one date stops and offers the default window from day 1 to day 2. |

## Left out

- Session creation, the SQL fetch and its memoisation (covid_dashboard.py:15-34). These are network I/O and a library cache. The fetched table is an input of `Dashboard.Refresh`.
- Lower-casing of column names (covid_dashboard.py:37). The `Row` datatype fixes the field names.
- Streamlit widgets, layout, messages and `st.stop()` (covid_dashboard.py:8-10, 48-55, 64-68, 91-97, 102-103). The selection, the radio value and the picker's return value are inputs. Stopping is the `AwaitingRange` outcome.
- The multiselect's limit of ten countries and the picker's min/max bounds. The widgets enforce these, not the data path, so the model accepts any selection and any picked dates.
- Date conversion with `pd.to_datetime` (covid_dashboard.py:81, 109-110). Dates are integer day numbers.
- The sort of the distinct dates (covid_dashboard.py:84). Only its first and last elements are used, so the model computes the minimum and maximum directly.
- All chart construction (covid_dashboard.py:123-151). The bar chart, heatmap and line chart take the column chosen by `Filters.MetricField`. The stacked bar always plots new cases (line 151), and the heatmap tooltip always shows new cases (line 143). These are specifications handed to rendering libraries, so there is nothing to verify.
- The per-million toggle (covid_dashboard.py:72-75). It only prints a placeholder and changes no data.
- `Transmission.Lower`: lower-cases ASCII letters only, while Python's `str.lower` is Unicode-wide. No non-ASCII character lower-cases to one of the ASCII letters the four prefixes use, so the category comes out the same.
- NULLs are modelled in the transmission column only. Country, the case and death counts and the report date are non-null values. pandas would skip null counts when summing and drop a group with a null country. A null date would become NaT at covid_dashboard.py:81, which fails both comparisons at lines 114-115, so the script would drop such a row even under the default window (so `Filters.DefaultWindowKeepsAll` holds only for tables without null dates), and it would leave the sort at line 84 ill-defined.
- Counts are unbounded integers. The 64-bit integer overflow of a pandas sum is not modelled.
- Python's string order is modelled as code-point lexicographic order (`Summary.LexLess`). Its properties, irreflexivity, transitivity and totality, are proved and used to keep the groups sorted.
