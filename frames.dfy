/** Tables as the column-transformation functions of main.py see them.
    A pandas DataFrame is an ordered sequence of named, row-aligned columns;
    each column is either numeric (what `select_dtypes(include=number)`
    selects) or not. Numbers are exact reals: floating point is not modelled,
    and no cell is missing (NaN). */
module Frames {

  /** One cell seen as a grouping key: a number or a label. */
  datatype Value = Num(x: real) | Text(s: string)

  /** A named column; its kind is the explicit tag that pandas infers. */
  datatype Column =
    | NumCol(name: string, nums: seq<real>)
    | CatCol(name: string, labels: seq<string>)
  {
    /** Number of rows in the column. */
    function Len(): nat {
      if NumCol? then |nums| else |labels|
    }

    /** The column's cells as key values, in row order. */
    function Cells(): (r: seq<Value>)
      ensures |r| == Len()
    {
      if NumCol? then seq(|nums|, i requires 0 <= i < |nums| => Num(nums[i]))
      else seq(|labels|, i requires 0 <= i < |labels| => Text(labels[i]))
    }
  }

  /** A DataFrame: its columns in order, and its number of rows. */
  datatype Table = Table(cols: seq<Column>, height: nat)

  /** The errors main.py raises, one constructor per raising site. */
  datatype Error =
    | MissingColumn               // pandas KeyError: a column label that is not there
    | InsufficientNumericColumns  // the "not enough numeric columns" ValueError
    | ShapeMismatch               // DataFrame constructor: more names than projected columns
    | MissingComponent            // KeyError when reading column 'PC2'
    | ColumnOverlap               // join: a meta column has the name of a component
    | ProjectionFailed            // numpy LinAlgError: the SVD did not converge

  datatype Result<T> = Ok(value: T) | Err(error: Error)

  /** Every column has exactly `height` rows: pandas keeps columns aligned. */
  ghost predicate Rectangular(t: Table) {
    forall c :: c in t.cols ==> c.Len() == t.height
  }

  /** No two columns share a label. */
  predicate UniqueNames(cols: seq<Column>) {
    forall i, j :: 0 <= i < j < |cols| ==> cols[i].name != cols[j].name
  }

  predicate NoDup<T(==)>(s: seq<T>) {
    forall i, j :: 0 <= i < j < |s| ==> s[i] != s[j]
  }

  /** `a` is `b` with some elements left out and the rest in their order. */
  predicate Subseq<T(==)>(a: seq<T>, b: seq<T>)
    decreases |b|
  {
    a == [] || (b != [] && ((a[0] == b[0] && Subseq(a[1..], b[1..])) || Subseq(a, b[1..])))
  }

  /** Sum of a numeric column (pandas `sum` with no missing values). */
  function Total(xs: seq<real>): real {
    if xs == [] then 0.0 else xs[0] + Total(xs[1..])
  }

  /** The sum of rows put one after the other is the sum of their sums. */
  lemma {:induction false} TotalConcat(a: seq<real>, b: seq<real>)
    ensures Total(a + b) == Total(a) + Total(b)
  {
    if a == [] {
      assert a + b == b;
    } else {
      TotalConcat(a[1..], b);
      assert (a + b)[1..] == a[1..] + b;
    }
  }

  /** `select_dtypes(include=number)`: the numeric columns, in table order. */
  function Numeric(cols: seq<Column>): (r: seq<Column>)
    ensures forall c :: c in r <==> c in cols && c.NumCol?
    ensures Subseq(r, cols)
  {
    if cols == [] then []
    else if cols[0].NumCol? then [cols[0]] + Numeric(cols[1..])
    else Numeric(cols[1..])
  }

  /** `select_dtypes(exclude=number)`: the other columns, in table order. */
  function NonNumeric(cols: seq<Column>): (r: seq<Column>)
    ensures forall c :: c in r <==> c in cols && c.CatCol?
    ensures Subseq(r, cols)
  {
    if cols == [] then []
    else if cols[0].CatCol? then [cols[0]] + NonNumeric(cols[1..])
    else NonNumeric(cols[1..])
  }

  /** Position of the first column labelled `name`, or |cols| when none is. */
  function Find(cols: seq<Column>, name: string): (r: nat)
    ensures r <= |cols|
    ensures r < |cols| ==> cols[r].name == name
    ensures forall i :: 0 <= i < r ==> cols[i].name != name
  {
    if cols == [] then 0
    else if cols[0].name == name then 0
    else 1 + Find(cols[1..], name)
  }

  /** Whether some column is labelled `name`. */
  predicate Has(cols: seq<Column>, name: string) {
    exists i :: 0 <= i < |cols| && cols[i].name == name
  }

  lemma FindHas(cols: seq<Column>, name: string)
    ensures Find(cols, name) < |cols| <==> Has(cols, name)
  {
    if Find(cols, name) < |cols| {
      assert cols[Find(cols, name)].name == name;
    }
  }

  /** Everything a subsequence holds comes from the sequence it was taken from. */
  lemma {:induction false} SubseqMembers<T>(a: seq<T>, b: seq<T>)
    requires Subseq(a, b)
    ensures forall x :: x in a ==> x in b
  {
    if a != [] {
      if a[0] == b[0] && Subseq(a[1..], b[1..]) {
        SubseqMembers(a[1..], b[1..]);
        forall x | x in a ensures x in b {
          if x != a[0] {
            assert x in a[1..];
          }
        }
      } else {
        SubseqMembers(a, b[1..]);
      }
    }
  }

  /** Taking a subsequence never makes two labels equal. */
  lemma {:induction false} SubseqUniqueNames(a: seq<Column>, b: seq<Column>)
    requires Subseq(a, b) && UniqueNames(b)
    ensures UniqueNames(a)
  {
    if a != [] {
      if a[0] == b[0] && Subseq(a[1..], b[1..]) {
        SubseqUniqueNames(a[1..], b[1..]);
        SubseqMembers(a[1..], b[1..]);
        forall j | 0 < j < |a| ensures a[0].name != a[j].name {
          assert a[j] in a[1..];
          var m :| 0 <= m < |b[1..]| && b[1..][m] == a[j];
          assert b[0].name != b[m + 1].name;
        }
      } else {
        SubseqUniqueNames(a, b[1..]);
      }
    }
  }

  /** Two different columns of a table with unique labels have different labels. */
  lemma DistinctColumnsDistinctNames(cols: seq<Column>, x: Column, y: Column)
    requires UniqueNames(cols) && x in cols && y in cols && x != y
    ensures x.name != y.name
  {
    var i :| 0 <= i < |cols| && cols[i] == x;
    var j :| 0 <= j < |cols| && cols[j] == y;
    assert i != j;
  }

  /** Every sequence is a subsequence of itself. */
  lemma {:induction false} SubseqRefl<T>(a: seq<T>)
    ensures Subseq(a, a)
  {
    if a != [] {
      SubseqRefl(a[1..]);
    }
  }

  /** A subsequence of a subsequence is a subsequence. */
  lemma {:induction false} SubseqTrans<T>(a: seq<T>, b: seq<T>, c: seq<T>)
    requires Subseq(a, b) && Subseq(b, c)
    ensures Subseq(a, c)
    decreases |c|
  {
    if a != [] {
      if b[0] == c[0] && Subseq(b[1..], c[1..]) {
        if a[0] == b[0] && Subseq(a[1..], b[1..]) {
          SubseqTrans(a[1..], b[1..], c[1..]);
        } else {
          SubseqTrans(a, b[1..], c[1..]);
        }
      } else {
        SubseqTrans(a, b, c[1..]);
      }
    }
  }

  /** Putting elements in front of a sequence keeps its subsequences. */
  lemma {:induction false} SubseqOfSuffix<T>(a: seq<T>, b: seq<T>)
    ensures Subseq(a, b + a)
  {
    if b == [] {
      assert b + a == a;
      SubseqRefl(a);
    } else {
      SubseqOfSuffix(a, b[1..]);
      assert (b + a)[1..] == b[1..] + a;
    }
  }

  /** A common tail may be appended to both sides of a subsequence. */
  lemma {:induction false} SubseqAppend<T>(a: seq<T>, b: seq<T>, c: seq<T>)
    requires Subseq(a, b)
    ensures Subseq(a + c, b + c)
    decreases |b|
  {
    if a == [] {
      assert a + c == c;
      SubseqOfSuffix(c, b);
    } else if a[0] == b[0] && Subseq(a[1..], b[1..]) {
      SubseqAppend(a[1..], b[1..], c);
      assert (a + c)[1..] == a[1..] + c;
      assert (b + c)[1..] == b[1..] + c;
    } else {
      SubseqAppend(a, b[1..], c);
      assert (b + c)[1..] == b[1..] + c;
    }
  }

  /** Selecting numeric columns commutes with putting tables side by side. */
  lemma {:induction false} NumericAppend(a: seq<Column>, b: seq<Column>)
    ensures Numeric(a + b) == Numeric(a) + Numeric(b)
  {
    if a == [] {
      assert a + b == b;
    } else {
      NumericAppend(a[1..], b);
      assert (a + b)[1..] == a[1..] + b;
    }
  }

  /** Selecting non-numeric columns commutes with putting tables side by side. */
  lemma {:induction false} NonNumericAppend(a: seq<Column>, b: seq<Column>)
    ensures NonNumeric(a + b) == NonNumeric(a) + NonNumeric(b)
  {
    if a == [] {
      assert a + b == b;
    } else {
      NonNumericAppend(a[1..], b);
      assert (a + b)[1..] == a[1..] + b;
    }
  }

  /** On columns that are all numeric, the two selections keep all and nothing. */
  lemma {:induction false} SelectAllNumeric(a: seq<Column>)
    requires forall c :: c in a ==> c.NumCol?
    ensures Numeric(a) == a && NonNumeric(a) == []
  {
    if a != [] {
      SelectAllNumeric(a[1..]);
    }
  }

  /** On columns that are all non-numeric, the two selections keep nothing and all. */
  lemma {:induction false} SelectAllNonNumeric(a: seq<Column>)
    requires forall c :: c in a ==> c.CatCol?
    ensures Numeric(a) == [] && NonNumeric(a) == a
  {
    if a != [] {
      SelectAllNonNumeric(a[1..]);
    }
  }
}
