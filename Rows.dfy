/**
 * The table the dashboard works on: one row per (country, report date) of the
 * WHO situation reports, and the boolean-mask selection that the script uses
 * for each of its filters.
 */
module Rows {

  /** A cell of a nullable text column: the warehouse returns NULL as None. */
  datatype Cell = Null | Text(text: string)

  /** One row of the fetched table. Dates are ordinal day numbers: only their order matters. */
  datatype Row = Row(
    country: string,
    totalCases: int,
    newCases: int,
    totalDeaths: int,
    newDeaths: int,
    transmission: Cell,
    date: int)

  datatype Option<T> = None | Some(value: T)

  /** `a` is `b` with some elements dropped and the rest kept in their order. */
  ghost predicate Subsequence<T>(a: seq<T>, b: seq<T>)
    decreases |b|
  {
    if |a| == 0 then true
    else if |b| == 0 then false
    else if a[0] == b[0] then Subsequence(a[1..], b[1..])
    else Subsequence(a, b[1..])
  }

  /**
   * The rows for which the mask `keep` is true, in table order
   * (pandas `df[mask]`). Nothing else is kept and no kept row is lost:
   * every row occurs in the result exactly as often as it occurs in the
   * table if the mask holds of it, and not at all otherwise.
   */
  function Where(rows: seq<Row>, keep: Row -> bool): (r: seq<Row>)
    ensures |r| <= |rows|
    ensures forall x :: x in r <==> x in rows && keep(x)
    ensures forall x :: multiset(r)[x] == if keep(x) then multiset(rows)[x] else 0
    ensures Subsequence(r, rows)
  {
    if |rows| == 0 then []
    else
      var tail := Where(rows[1..], keep);
      assert rows == [rows[0]] + rows[1..];
      assert |tail| > 0 ==> tail[0] in tail;
      if keep(rows[0]) then [rows[0]] + tail else tail
  }

  /** A mask that holds of every row selects the whole table. */
  lemma {:induction false} WhereAll(rows: seq<Row>, keep: Row -> bool)
    requires forall x :: x in rows ==> keep(x)
    ensures Where(rows, keep) == rows
  {
    if |rows| > 0 {
      WhereAll(rows[1..], keep);
    }
  }

  /** Two masks that agree on the table's rows select the same rows. */
  lemma {:induction false} WhereSameMask(rows: seq<Row>, p: Row -> bool, q: Row -> bool)
    requires forall x :: x in rows ==> p(x) == q(x)
    ensures Where(rows, p) == Where(rows, q)
  {
    if |rows| > 0 {
      WhereSameMask(rows[1..], p, q);
    }
  }

  /** Filtering twice, first by `p` then by `q`, is filtering once by both masks. */
  lemma {:induction false} WhereWhere(rows: seq<Row>, p: Row -> bool, q: Row -> bool)
    ensures Where(Where(rows, p), q) == Where(rows, x => p(x) && q(x))
  {
    if |rows| > 0 {
      WhereWhere(rows[1..], p, q);
    }
  }
}
