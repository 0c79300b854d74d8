/**
 * The transmission classifier: the free-text transmission classification of
 * a report is reduced to one of five categories by a case-insensitive prefix
 * test, and the column is rewritten with the category's name.
 */
module Transmission {
  import opened Rows

  datatype Category = Cluster | Community | Local | Pending | Other

  /** ASCII lower-casing of one character. */
  function LowerChar(c: char): char
  {
    if 'A' <= c <= 'Z' then (c as int + 32) as char else c
  }

  /**
   * Lower-casing of a string: no upper-case ASCII letter remains, each one
   * becomes its lower-case letter, and every other character is kept.
   */
  function Lower(s: string): (r: string)
    ensures |r| == |s|
    ensures forall i :: 0 <= i < |r| ==> !('A' <= r[i] <= 'Z')
    ensures forall i :: 0 <= i < |s| && 'A' <= s[i] <= 'Z' ==> r[i] as int == s[i] as int + 32
    ensures forall i :: 0 <= i < |s| && !('A' <= s[i] <= 'Z') ==> r[i] == s[i]
  {
    seq(|s|, i requires 0 <= i < |s| => LowerChar(s[i]))
  }

  /** Python's `str(x)` on a cell: NULL prints as "None". */
  function Str(x: Cell): string
  {
    match x
    case Null => "None"
    case Text(s) => s
  }

  /** The prefix a lower-cased value must start with to fall in a category. */
  function Prefix(c: Category): string
    requires c != Other
  {
    match c
    case Cluster => "clus"
    case Community => "com"
    case Local => "loc"
    case Pending => "pen"
  }

  /** The lower-cased value `l` starts with the prefix of category `c`. */
  predicate Matches(c: Category, l: string)
  {
    c != Other && Prefix(c) <= l
  }

  /** The name the classifier writes back into the column. */
  function Label(c: Category): string
  {
    match c
    case Cluster => "Cluster"
    case Community => "Community"
    case Local => "Local"
    case Pending => "Pending"
    case Other => "Other"
  }

  /**
   * The classifying lambda, on the text `str(x)` of a value: a named category
   * only when the lower-cased text starts with its prefix, and Other exactly
   * when it starts with none of the four.
   */
  function Classify(s: string): (c: Category)
    ensures c != Other ==> Matches(c, Lower(s))
    ensures c == Other <==> forall d :: d != Other ==> !Matches(d, Lower(s))
  {
    var l := Lower(s);
    if "clus" <= l then assert Matches(Cluster, l); Cluster
    else if "com" <= l then assert Matches(Community, l); Community
    else if "loc" <= l then assert Matches(Local, l); Local
    else if "pen" <= l then assert Matches(Pending, l); Pending
    else NoPrefixIsOther(l); Other
  }

  /** A lower-cased value that starts with none of the four prefixes matches no category. */
  lemma NoPrefixIsOther(l: string)
    requires !("clus" <= l) && !("com" <= l) && !("loc" <= l) && !("pen" <= l)
    ensures forall d :: d != Other ==> !Matches(d, l)
  {
    forall d | d != Other ensures !Matches(d, l) {
      match d
      case Cluster =>
      case Community =>
      case Local =>
      case Pending =>
    }
  }

  /** The classifier applied to a cell: NULL is classified as its text "None", so as Other. */
  function ClassifyCell(x: Cell): (c: Category)
    ensures x.Null? ==> c == Other
    ensures x.Text? ==> c == Classify(x.text)
  {
    assert x.Null? ==> Lower(Str(x))[0] == 'n' && Lower(Str(x))[1] == 'o';
    Classify(Str(x))
  }

  /** The rewritten row: the transmission cell holds its category's name. */
  function ClassifyRow(r: Row): Row
  {
    r.(transmission := Text(Label(ClassifyCell(r.transmission))))
  }

  /**
   * The column rewrite: every row keeps its place and every field but the
   * transmission cell, which now holds the name of the row's category.
   */
  function ClassifyColumn(rows: seq<Row>): (r: seq<Row>)
    ensures |r| == |rows|
    ensures forall i :: 0 <= i < |rows| ==>
      r[i].transmission == Text(Label(ClassifyCell(rows[i].transmission))) &&
      r[i] == rows[i].(transmission := r[i].transmission)
    ensures forall x :: x in r ==> exists c :: x.transmission == Text(Label(c))
  {
    seq(|rows|, i requires 0 <= i < |rows| => ClassifyRow(rows[i]))
  }

  /** No lower-cased value starts with the prefixes of two different categories. */
  lemma PrefixesExclusive(l: string, c: Category, d: Category)
    requires Matches(c, l) && Matches(d, l)
    ensures c == d
  {
    assert l[0] == Prefix(c)[0] && l[0] == Prefix(d)[0];
    assert l[1] == Prefix(c)[1] && l[1] == Prefix(d)[1];
  }

  /**
   * The classifier exactly captures the prefix rule: a value falls in one of
   * the four named categories iff its lower-cased form starts with that
   * category's prefix, and in Other iff it starts with none of them. So the
   * order in which the script tries the prefixes does not matter.
   */
  lemma ClassifyIsPrefixRule(s: string, c: Category)
    ensures c != Other ==> (Classify(s) == c <==> Matches(c, Lower(s)))
    ensures c == Other ==> (Classify(s) == Other <==>
      forall d :: d != Other ==> !Matches(d, Lower(s)))
  {
    var l := Lower(s);
    if Classify(s) != Other {
      assert Matches(Classify(s), l);
      if c != Other && Matches(c, l) {
        PrefixesExclusive(l, c, Classify(s));
      }
      if c == Other {
        assert Matches(Classify(s), l);
      }
    } else {
      forall d | d != Other ensures !Matches(d, l) {
        match d
        case Cluster =>
        case Community =>
        case Local =>
        case Pending =>
      }
    }
  }

  /** Lower-casing is idempotent. */
  lemma LowerIdempotent(s: string)
    ensures Lower(Lower(s)) == Lower(s)
  {
  }

  /** Case does not matter: a value and its lower-cased form fall in the same category. */
  lemma ClassifyCaseInsensitive(s: string)
    ensures Classify(Lower(s)) == Classify(s)
  {
  }

  /** Each category's name is classified back into that category. */
  lemma ClassifyLabel(c: Category)
    ensures Classify(Label(c)) == c
  {
    match c
    case Cluster =>
      assert Lower("Cluster")[..4] == "clus";
    case Community =>
      assert Lower("Community")[..3] == "com" && Lower("Community")[1] == 'o';
    case Local =>
      assert Lower("Local")[..3] == "loc" && Lower("Local")[0] == 'l';
    case Pending =>
      assert Lower("Pending")[..3] == "pen" && Lower("Pending")[0] == 'p';
    case Other =>
      assert Lower("Other")[0] == 'o' && Lower("Other")[1] == 't';
  }

  /** Classifying an already classified value changes nothing. */
  lemma ClassifyIdempotent(s: string)
    ensures Classify(Label(Classify(s))) == Classify(s)
  {
    ClassifyLabel(Classify(s));
  }

  /** A NULL cell is classified as Other. */
  lemma NullIsOther()
    ensures ClassifyCell(Null) == Other
  {
    assert Lower("None")[0] == 'n' && Lower("None")[1] == 'o';
  }

  /** Rewriting the column a second time leaves it as it is. */
  lemma ClassifyColumnIdempotent(rows: seq<Row>)
    ensures ClassifyColumn(ClassifyColumn(rows)) == ClassifyColumn(rows)
  {
    var once := ClassifyColumn(rows);
    forall i | 0 <= i < |rows| ensures ClassifyColumn(once)[i] == once[i] {
      ClassifyLabel(ClassifyCell(rows[i].transmission));
    }
  }

  /** Worked examples of Cluster, in upper, lower and mixed case. */
  lemma ClassifyExamples()
    ensures Classify("CLUSTER") == Cluster
    ensures Classify("clus") == Cluster
    ensures Classify("Clustered") == Cluster
  {
    assert Classify("CLUSTER") == Cluster by { assert Lower("CLUSTER")[..4] == "clus"; }
    assert Classify("clus") == Cluster by { assert Lower("clus")[..4] == "clus"; }
    assert Lower("Clustered")[..4] == "clus";
  }

  /** Worked examples of the other three named categories. */
  lemma ClassifyNamedExamples()
    ensures Classify("COMMUNITY_SPREAD") == Community
    ensures Classify("Local transmission") == Local
    ensures Classify("pending") == Pending
  {
    assert Lower("COMMUNITY_SPREAD")[..3] == "com";
    ClassifyIsPrefixRule("COMMUNITY_SPREAD", Community);
    assert Lower("Local transmission")[..3] == "loc";
    ClassifyIsPrefixRule("Local transmission", Local);
    assert Lower("pending")[..3] == "pen";
    ClassifyIsPrefixRule("pending", Pending);
  }

  /** Worked examples of values in no category: an unknown text and the empty string. */
  lemma ClassifyOtherExamples()
    ensures Classify("xyz") == Other
    ensures Classify("") == Other
  {
    assert Lower("xyz")[0] == 'x';
  }
}
