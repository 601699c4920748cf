/** The table-shaping skeleton of `dimensionality_reduction`
    (main.py:49-78): split off the numeric columns that are not meta
    columns, require two of them, project them, label the projected columns
    `PC1` ... `PCk`, negate `PC2`, and join the meta columns back on by row
    position. Standardisation and the singular value decomposition are an
    opaque projection, which either fails (numpy's LinAlgError) or returns
    scores of a known shape. */
module Reduction {
  import opened Frames
  import Decimal

  /** Column-major matrices: a sequence of columns of equal length. */
  type Matrix = seq<seq<real>>

  /** The outcome of `np.linalg.svd` on the standardised data: the projected
      scores, or the LinAlgError raised when the decomposition does not
      converge. */
  datatype Projected = Converged(scores: Matrix) | DidNotConverge

  /** Standardise, decompose and project (main.py:63-70); opaque. */
  type Projection = Matrix -> Projected

  ghost predicate IsMatrix(m: Matrix, rows: nat) {
    forall j :: 0 <= j < |m| ==> |m[j]| == rows
  }

  function Min(a: nat, b: nat): nat {
    if a <= b then a else b
  }

  /** What the reduced SVD promises about shape: p columns of n rows are
      projected onto min(n, p) score columns of n rows each. */
  ghost predicate ScoresShape(project: Projection) {
    forall m, rows :: IsMatrix(m, rows) && |m| > 0 && project(m).Converged? ==>
      IsMatrix(project(m).scores, rows) && |project(m).scores| == Min(rows, |m|)
  }

  /** A column with at least one row whose rows are all equal: its standard
      deviation is 0 (or, with one row, undefined), so standardising it at
      main.py:63 yields NaN. */
  predicate Constant(xs: seq<real>) {
    |xs| >= 1 && forall i :: 0 <= i < |xs| ==> xs[i] == xs[0]
  }

  /** numpy's behaviour on NaN input: the decomposition does not converge
      and raises. This is a property of the library, not of main.py, and is
      assumed only by the lemma that names it. */
  ghost predicate FailsOnConstant(project: Projection) {
    forall m, j :: 0 <= j < |m| && Constant(m[j]) ==> project(m) == DidNotConverge
  }

  /** The label of the component at zero-based position `i`: f"PC{i + 1}".
      The digits after "PC" read back as i + 1. */
  function ComponentName(i: nat): (r: string)
    ensures |r| >= 3 && r[..2] == "PC"
    ensures Decimal.AllDigits(r[2..]) && Decimal.ValueOf(r[2..]) == i + 1
  {
    var digits := Decimal.Numeral(i + 1);
    Decimal.ValueOfNumeral(i + 1);
    assert ("PC" + digits)[2..] == digits;
    "PC" + digits
  }

  /** Different positions get different labels. */
  lemma ComponentNameInjective(i: nat, j: nat)
    ensures ComponentName(i) == ComponentName(j) ==> i == j
  {
    if ComponentName(i) == ComponentName(j) {
      assert ComponentName(i)[2..] == ComponentName(j)[2..];
    }
  }

  /** `df.drop(columns=meta_columns)`: the columns whose label is not a meta label. */
  function Drop(cols: seq<Column>, meta: seq<string>): (r: seq<Column>)
    ensures forall c :: c in r <==> c in cols && c.name !in meta
    ensures Subseq(r, cols)
  {
    if cols == [] then []
    else if cols[0].name !in meta then
      var rest := Drop(cols[1..], meta);
      assert ([cols[0]] + rest)[1..] == rest;
      [cols[0]] + rest
    else Drop(cols[1..], meta)
  }

  /** `numeric_data` (main.py:54). */
  function NumericData(t: Table, meta: seq<string>): (r: seq<Column>)
    ensures forall c :: c in r <==> c in t.cols && c.NumCol? && c.name !in meta
    ensures Subseq(r, t.cols)
  {
    var kept := Drop(t.cols, meta);
    SubseqTrans(Numeric(kept), kept, t.cols);
    Numeric(kept)
  }

  /** The numeric data as a matrix, one entry per column. */
  function MatrixOf(data: seq<Column>): (m: Matrix)
    requires forall c :: c in data ==> c.NumCol?
    ensures |m| == |data|
  {
    seq(|data|, j requires 0 <= j < |data| => data[j].nums)
  }

  /** The projection of the numeric data onto every right singular vector. */
  function Project(t: Table, meta: seq<string>, project: Projection): Projected {
    project(MatrixOf(NumericData(t, meta)))
  }

  /** `pd.DataFrame(reduced_data, columns=[f"PC{i + 1}" ...])` (main.py:73):
      the first `k` score columns, labelled. */
  function Components(scores: Matrix, k: nat): (r: seq<Column>)
    requires k <= |scores|
    ensures |r| == k
    ensures forall i :: 0 <= i < k ==> r[i] == NumCol(ComponentName(i), scores[i])
    ensures UniqueNames(r)
  {
    var pcs := seq(k, i requires 0 <= i < k => NumCol(ComponentName(i), scores[i]));
    assert UniqueNames(pcs) by {
      forall i, j | 0 <= i < j < k ensures pcs[i].name != pcs[j].name {
        ComponentNameInjective(i, j);
      }
    }
    pcs
  }

  function Negate(xs: seq<real>): (r: seq<real>)
    ensures |r| == |xs| && forall i :: 0 <= i < |xs| ==> r[i] + xs[i] == 0.0
  {
    seq(|xs|, i requires 0 <= i < |xs| => -xs[i])
  }

  /** `reduced_df['PC2'] = reduced_df['PC2'] * -1` (main.py:76); reading a
      missing `PC2` raises. */
  function FlipSecond(pcs: seq<Column>): (r: Result<seq<Column>>)
    requires forall c :: c in pcs ==> c.NumCol?
    ensures r.Err? <==> !Has(pcs, "PC2")
    ensures r.Err? ==> r.error == MissingComponent
    // the first column labelled `PC2` is negated and keeps its label; every
    // other column keeps its place and its cells
    ensures r.Ok? ==> var at := Find(pcs, "PC2");
                      && |r.value| == |pcs| && at < |pcs|
                      && r.value[at] == NumCol("PC2", Negate(pcs[at].nums))
                      && forall i :: 0 <= i < |pcs| && i != at ==> r.value[i] == pcs[i]
  {
    FindHas(pcs, "PC2");
    var at := Find(pcs, "PC2");
    if at == |pcs| then Err(MissingComponent)
    else Ok(pcs[at := NumCol("PC2", Negate(pcs[at].nums))])
  }

  /** `df[meta_columns]`: for each meta label, the column carrying it. */
  function MetaColumns(cols: seq<Column>, meta: seq<string>): (r: seq<Column>)
    requires forall name :: name in meta ==> Has(cols, name)
    ensures |r| == |meta|
    ensures forall j :: 0 <= j < |meta| ==> r[j] in cols && r[j].name == meta[j]
  {
    var r := seq(|meta|, j requires 0 <= j < |meta| =>
                   FindHas(cols, meta[j]);
                   cols[Find(cols, meta[j])]);
    assert forall j :: 0 <= j < |meta| ==> r[j] in cols && r[j].name == meta[j] by {
      forall j | 0 <= j < |meta| ensures r[j] in cols && r[j].name == meta[j] {
        FindHas(cols, meta[j]);
      }
    }
    r
  }

  /** A meta label that is also the label of one of the first `k` components. */
  predicate Overlaps(meta: seq<string>, k: nat) {
    exists i, j :: 0 <= i < k && 0 <= j < |meta| && meta[j] == ComponentName(i)
  }

  /** `dimensionality_reduction(df, num_components, meta_columns)`. */
  function DimensionalityReduction(t: Table, k: nat, meta: seq<string>, project: Projection): (r: Result<Table>)
    requires Rectangular(t) && ScoresShape(project)
    // `drop` raises for an unknown meta label before anything else is checked
    ensures r == Err(MissingColumn) <==> exists name :: name in meta && !Has(t.cols, name)
  {
    if exists name :: name in meta && !Has(t.cols, name) then Err(MissingColumn)
    else
      var data := NumericData(t, meta);
      if |data| < 2 then Err(InsufficientNumericColumns)
      else
        match project(MatrixOf(data))
        case DidNotConverge => Err(ProjectionFailed)
        case Converged(scores) =>
          if k > |scores| then Err(ShapeMismatch)
          else
            var pcs := Components(scores, k);
            match FlipSecond(pcs)
            case Err(e) => Err(e)
            case Ok(flipped) =>
              if Overlaps(meta, k) then Err(ColumnOverlap)
              else Ok(Table(flipped + MetaColumns(t.cols, meta), t.height))
  }

  /** Position 1 is the only one labelled `PC2`. */
  lemma SecondLabel(i: nat)
    ensures ComponentName(i) == "PC2" <==> i == 1
  {
    assert ComponentName(1) == "PC2";
    ComponentNameInjective(i, 1);
  }

  /** With fewer than two components the read of `PC2` raises; otherwise the
      second component, and only it, is negated. */
  lemma FlipComponents(scores: Matrix, k: nat)
    requires k <= |scores|
    ensures k < 2 ==> FlipSecond(Components(scores, k)) == Err(MissingComponent)
    ensures k >= 2 ==> FlipSecond(Components(scores, k))
                       == Ok(Components(scores, k)[1 := NumCol("PC2", Negate(scores[1]))])
  {
    var pcs := Components(scores, k);
    SecondLabel(0);
    SecondLabel(1);
    if k < 2 {
      assert Find(pcs, "PC2") == |pcs|;
    } else {
      assert Find(pcs, "PC2") == 1;
    }
  }

  /** The numeric data is a matrix with one entry per row of the table, and
      when its projection converges it has min(n, p) score columns of n rows. */
  lemma ScoresOfData(t: Table, meta: seq<string>, project: Projection)
    requires Rectangular(t) && ScoresShape(project)
    requires |NumericData(t, meta)| > 0 && Project(t, meta, project).Converged?
    ensures IsMatrix(Project(t, meta, project).scores, t.height)
    ensures |Project(t, meta, project).scores| == Min(t.height, |NumericData(t, meta)|)
  {
    var data := NumericData(t, meta);
    var m := MatrixOf(data);
    forall j | 0 <= j < |m| ensures |m[j]| == t.height {
      assert data[j] in data;
    }
    assert IsMatrix(m, t.height);
  }

  /** Which error, if any, the reduction raises once every meta label exists:
      too few numeric columns, a decomposition that does not converge, more
      components than projected columns, a single component (no `PC2` to
      read), or a meta label clashing with a component label, checked in
      that order. */
  lemma ReductionErrors(t: Table, k: nat, meta: seq<string>, project: Projection)
    requires Rectangular(t) && ScoresShape(project)
    requires forall name :: name in meta ==> Has(t.cols, name)
    ensures var r, data, p := DimensionalityReduction(t, k, meta, project), NumericData(t, meta), Project(t, meta, project);
            && (r == Err(InsufficientNumericColumns) <==> |data| < 2)
            && (|data| >= 2 ==>
                 && (r == Err(ProjectionFailed) <==> p.DidNotConverge?)
                 && (p.Converged? ==>
                      && (r == Err(ShapeMismatch) <==> k > Min(t.height, |data|))
                      && (k <= Min(t.height, |data|) ==> (r == Err(MissingComponent) <==> k < 2))
                      && (2 <= k <= Min(t.height, |data|) ==> (r == Err(ColumnOverlap) <==> Overlaps(meta, k)))))
  {
    var data := NumericData(t, meta);
    if |data| >= 2 && Project(t, meta, project).Converged? {
      ScoresOfData(t, meta, project);
      var scores := Project(t, meta, project).scores;
      if k <= |scores| {
        FlipComponents(scores, k);
      }
    }
  }

  /** The reduction succeeds exactly when every meta label exists, at least
      two numeric non-meta columns remain, 2 <= k <= min(n, p), and no meta
      label is a component label. */
  lemma ReductionSucceedsIff(t: Table, k: nat, meta: seq<string>, project: Projection)
    requires Rectangular(t) && ScoresShape(project)
    ensures DimensionalityReduction(t, k, meta, project).Ok? <==>
            && (forall name :: name in meta ==> Has(t.cols, name))
            && |NumericData(t, meta)| >= 2
            && Project(t, meta, project).Converged?
            && 2 <= k <= Min(t.height, |NumericData(t, meta)|)
            && !Overlaps(meta, k)
  {
    if forall name :: name in meta ==> Has(t.cols, name) {
      ReductionErrors(t, k, meta, project);
    }
  }

  /** On success the result is the labelled components, `PC2` negated,
      followed by the meta columns; the row count is the input's. */
  lemma ReductionResult(t: Table, k: nat, meta: seq<string>, project: Projection)
    requires Rectangular(t) && ScoresShape(project)
    requires DimensionalityReduction(t, k, meta, project).Ok?
    ensures Project(t, meta, project).Converged?
    ensures var s := Project(t, meta, project).scores;
            && (forall name :: name in meta ==> Has(t.cols, name))
            && |NumericData(t, meta)| >= 2
            && IsMatrix(s, t.height)
            && 2 <= k <= |s|
            && DimensionalityReduction(t, k, meta, project).value
               == Table(Components(s, k)[1 := NumCol("PC2", Negate(s[1]))] + MetaColumns(t.cols, meta), t.height)
  {
    ReductionSucceedsIff(t, k, meta, project);
    ScoresOfData(t, meta, project);
    FlipComponents(Project(t, meta, project).scores, k);
  }

  /** On success: k component columns then one column per meta label; every
      column has the input's row count. */
  lemma ReductionShape(t: Table, k: nat, meta: seq<string>, project: Projection)
    requires Rectangular(t) && ScoresShape(project)
    requires DimensionalityReduction(t, k, meta, project).Ok?
    ensures var out := DimensionalityReduction(t, k, meta, project).value;
            && |out.cols| == k + |meta|
            && out.height == t.height
            && Rectangular(out)
  {
    ReductionResult(t, k, meta, project);
    var s := Project(t, meta, project).scores;
    var out := DimensionalityReduction(t, k, meta, project).value;
    var pcs := Components(s, k)[1 := NumCol("PC2", Negate(s[1]))];
    forall c | c in out.cols ensures c.Len() == t.height {
      if c in pcs {
        var i :| 0 <= i < k && pcs[i] == c;
        assert |s[i]| == t.height;
      } else {
        var j :| 0 <= j < |meta| && MetaColumns(t.cols, meta)[j] == c;
        FindHas(t.cols, meta[j]);
      }
    }
  }

  /** On success: the components are labelled PC1..PCk, PC2 is the negated
      second projected column, every other component is its projected column
      unchanged, and the meta columns follow in meta order, each the input
      column of that label with its rows in place. */
  lemma ReductionColumns(t: Table, k: nat, meta: seq<string>, project: Projection)
    requires Rectangular(t) && ScoresShape(project)
    requires DimensionalityReduction(t, k, meta, project).Ok?
    ensures Project(t, meta, project).Converged?
    ensures var out, s := DimensionalityReduction(t, k, meta, project).value, Project(t, meta, project).scores;
            && 2 <= k <= |s|
            && |out.cols| == k + |meta|
            && (forall i :: 0 <= i < k ==> out.cols[i].NumCol? && out.cols[i].name == ComponentName(i))
            && out.cols[1].nums == Negate(s[1])
            && (forall i :: 0 <= i < k && i != 1 ==> out.cols[i].nums == s[i])
            && (forall j :: 0 <= j < |meta| ==>
                  && Find(t.cols, meta[j]) < |t.cols|
                  && out.cols[k + j] == t.cols[Find(t.cols, meta[j])])
  {
    ReductionResult(t, k, meta, project);
    SecondLabel(1);
    forall j | 0 <= j < |meta| ensures Find(t.cols, meta[j]) < |t.cols| {
      FindHas(t.cols, meta[j]);
    }
  }

  /** On success the labels are unique when the meta labels are. */
  lemma ReductionUniqueNames(t: Table, k: nat, meta: seq<string>, project: Projection)
    requires Rectangular(t) && ScoresShape(project)
    requires DimensionalityReduction(t, k, meta, project).Ok?
    ensures NoDup(meta) ==> UniqueNames(DimensionalityReduction(t, k, meta, project).value.cols)
  {
    ReductionColumns(t, k, meta, project);
    ReductionSucceedsIff(t, k, meta, project);
    var out := DimensionalityReduction(t, k, meta, project).value;
    if NoDup(meta) {
      forall i, j | 0 <= i < j < |out.cols| ensures out.cols[i].name != out.cols[j].name {
        if j < k {
          ComponentNameInjective(i, j);
        } else if i >= k {
          FindHas(t.cols, meta[i - k]);
          FindHas(t.cols, meta[j - k]);
          assert out.cols[i].name == meta[i - k] && out.cols[j].name == meta[j - k];
        } else {
          FindHas(t.cols, meta[j - k]);
          assert out.cols[j].name == meta[j - k];
        }
      }
    }
  }

  /** Assuming numpy raises on NaN input: once the meta labels exist and two
      numeric columns remain, a constant numeric column, or a table with a
      single row, makes the reduction fail in the decomposition, whatever k
      is. */
  lemma ConstantColumnFails(t: Table, k: nat, meta: seq<string>, project: Projection)
    requires Rectangular(t) && ScoresShape(project) && FailsOnConstant(project)
    requires forall name :: name in meta ==> Has(t.cols, name)
    requires |NumericData(t, meta)| >= 2
    ensures (exists c :: c in NumericData(t, meta) && Constant(c.nums)) ==>
              DimensionalityReduction(t, k, meta, project) == Err(ProjectionFailed)
    ensures t.height == 1 ==> DimensionalityReduction(t, k, meta, project) == Err(ProjectionFailed)
  {
    var data := NumericData(t, meta);
    var m := MatrixOf(data);
    if t.height == 1 {
      assert data[0] in data;
      assert Constant(m[0]);
    }
    if exists c :: c in data && Constant(c.nums) {
      var c :| c in data && Constant(c.nums);
      var j :| 0 <= j < |data| && data[j] == c;
      assert Constant(m[j]);
    }
    ReductionErrors(t, k, meta, project);
  }
}
