/** `remove_sparse_columns` (main.py:31-46): keep the numeric columns whose
    total is strictly greater than a threshold, in their order, then every
    non-numeric column; fail when fewer than two numeric columns are kept. */
module SparseFilter {
  import opened Frames

  /** The mask `column_sums > threshold`, on one column. */
  predicate Survives(c: Column, threshold: real) {
    c.NumCol? && Total(c.nums) > threshold
  }

  /** The numeric columns that pass the mask, in table order. */
  function Kept(cols: seq<Column>, threshold: real): (r: seq<Column>)
    ensures forall c :: c in r <==> c in cols && Survives(c, threshold)
    ensures Subseq(r, Numeric(cols))
  {
    if cols == [] then []
    else if Survives(cols[0], threshold) then [cols[0]] + Kept(cols[1..], threshold)
    else Kept(cols[1..], threshold)
  }

  /** Two different positions of the table hold columns that pass the mask. */
  predicate TwoSurvive(cols: seq<Column>, threshold: real) {
    exists i, j :: 0 <= i < j < |cols| && Survives(cols[i], threshold) && Survives(cols[j], threshold)
  }

  /** At least two columns pass the mask exactly when two different
      positions of the table hold columns that pass it. */
  lemma {:induction false} TwoSurvivors(cols: seq<Column>, threshold: real)
    ensures |Kept(cols, threshold)| >= 2 <==> TwoSurvive(cols, threshold)
    decreases |cols|, 1
  {
    if cols != [] {
      TwoSurvivorsStep(cols, threshold);
    }
  }

  lemma {:induction false} TwoSurvivorsStep(cols: seq<Column>, threshold: real)
    requires cols != []
    ensures |Kept(cols, threshold)| >= 2 <==> TwoSurvive(cols, threshold)
    decreases |cols|, 0
  {
    var tail := cols[1..];
    TwoSurvivors(tail, threshold);
    if |Kept(cols, threshold)| >= 2 {
      if Survives(cols[0], threshold) {
        var c := Kept(tail, threshold)[0];
        assert c in Kept(tail, threshold);
        var m :| 0 <= m < |tail| && tail[m] == c;
        assert cols[m + 1] == c;
        assert Survives(cols[0], threshold) && Survives(cols[m + 1], threshold);
      } else {
        var i, j :| 0 <= i < j < |tail| && Survives(tail[i], threshold) && Survives(tail[j], threshold);
        assert cols[i + 1] == tail[i] && cols[j + 1] == tail[j];
      }
    }
    if TwoSurvive(cols, threshold) {
      var i, j :| 0 <= i < j < |cols| && Survives(cols[i], threshold) && Survives(cols[j], threshold);
      assert cols[j] == tail[j - 1];
      assert tail[j - 1] in Kept(tail, threshold);
      if !Survives(cols[0], threshold) {
        assert cols[i] == tail[i - 1];
        assert Survives(tail[i - 1], threshold) && Survives(tail[j - 1], threshold);
      }
    }
  }

  /** `remove_sparse_columns(df, threshold)`. */
  function RemoveSparseColumns(t: Table, threshold: real): (r: Result<Table>)
    // the ValueError is raised exactly when fewer than two numeric columns pass
    ensures r.Err? <==> !TwoSurvive(t.cols, threshold)
    ensures r.Err? ==> r.error == InsufficientNumericColumns
    // a numeric column is kept iff its total is strictly above the threshold
    ensures r.Ok? ==> forall c :: c in r.value.cols && c.NumCol? <==> c in t.cols && Survives(c, threshold)
    // every non-numeric column is kept; nothing else is in the result
    ensures r.Ok? ==> forall c :: c in r.value.cols && c.CatCol? <==> c in t.cols && c.CatCol?
    // the row count is unchanged
    ensures r.Ok? ==> r.value.height == t.height
  {
    var keep := Kept(t.cols, threshold);
    TwoSurvivors(t.cols, threshold);
    if |keep| < 2 then Err(InsufficientNumericColumns)
    else Ok(Table(keep + NonNumeric(t.cols), t.height))
  }

  /** The kept numeric columns keep their relative order and come first;
      every non-numeric column follows, in its order. */
  lemma RemoveSparseColumnsOrder(t: Table, threshold: real)
    requires RemoveSparseColumns(t, threshold).Ok?
    ensures var out := RemoveSparseColumns(t, threshold).value.cols;
            && Numeric(out) == Kept(t.cols, threshold)
            && Subseq(Numeric(out), Numeric(t.cols))
            && NonNumeric(out) == NonNumeric(t.cols)
            && forall i, j :: 0 <= i < j < |out| ==> !(out[i].CatCol? && out[j].NumCol?)
  {
    var keep, others := Kept(t.cols, threshold), NonNumeric(t.cols);
    SelectAllNumeric(keep);
    SelectAllNonNumeric(others);
    NumericAppend(keep, others);
    NonNumericAppend(keep, others);
    assert keep + [] == keep;
    assert [] + others == others;
    var out := keep + others;
    forall i, j | 0 <= i < j < |out| ensures !(out[i].CatCol? && out[j].NumCol?) {
      if j < |keep| {
        assert out[i] in keep;
      } else {
        assert out[j] in others;
      }
    }
  }

  /** Filtering keeps a table rectangular and its labels unique. */
  lemma RemoveSparseColumnsPreserves(t: Table, threshold: real)
    requires RemoveSparseColumns(t, threshold).Ok?
    ensures Rectangular(t) ==> Rectangular(RemoveSparseColumns(t, threshold).value)
    ensures UniqueNames(t.cols) ==> UniqueNames(RemoveSparseColumns(t, threshold).value.cols)
  {
    UniqueKeep(t.cols, Kept(t.cols, threshold), NonNumeric(t.cols));
  }

  /** The kept numeric columns and the non-numeric columns together carry
      unique labels when the table does. */
  lemma UniqueKeep(cols: seq<Column>, keep: seq<Column>, others: seq<Column>)
    requires Subseq(keep, cols) || Subseq(keep, Numeric(cols))
    requires forall c :: c in keep ==> c in cols && c.NumCol?
    requires others == NonNumeric(cols)
    ensures UniqueNames(cols) ==> UniqueNames(keep + others)
  {
    if UniqueNames(cols) {
      if !Subseq(keep, cols) {
        SubseqUniqueNames(Numeric(cols), cols);
        SubseqUniqueNames(keep, Numeric(cols));
      } else {
        SubseqUniqueNames(keep, cols);
      }
      SubseqUniqueNames(others, cols);
      var all := keep + others;
      forall i, j | 0 <= i < j < |all| ensures all[i].name != all[j].name {
        if j < |keep| {
        } else if i >= |keep| {
          assert all[i] == others[i - |keep|] && all[j] == others[j - |keep|];
        } else {
          assert all[i] in keep && all[j] in others;
          DistinctColumnsDistinctNames(cols, all[i], all[j]);
        }
      }
    }
  }

  /** Raising the threshold never keeps a column a lower one dropped, and
      keeps the survivors in the same order. */
  lemma {:induction false} KeptAntitone(cols: seq<Column>, lo: real, hi: real)
    requires lo <= hi
    ensures Subseq(Kept(cols, hi), Kept(cols, lo))
  {
    if cols != [] {
      var tail := cols[1..];
      KeptAntitone(tail, lo, hi);
      if Survives(cols[0], hi) {
        assert Kept(cols, hi)[1..] == Kept(tail, hi);
        assert Kept(cols, lo)[1..] == Kept(tail, lo);
      } else if Survives(cols[0], lo) {
        assert Kept(cols, lo)[1..] == Kept(tail, lo);
      }
    }
  }

  /** Whenever filtering at a higher threshold succeeds, filtering at a lower
      one succeeds too, and its result contains the higher one's columns in
      the same order. */
  lemma RemoveSparseColumnsAntitone(t: Table, lo: real, hi: real)
    requires lo <= hi
    ensures RemoveSparseColumns(t, hi).Ok? ==>
              RemoveSparseColumns(t, lo).Ok? &&
              Subseq(RemoveSparseColumns(t, hi).value.cols, RemoveSparseColumns(t, lo).value.cols)
  {
    KeptAntitone(t.cols, lo, hi);
    if RemoveSparseColumns(t, hi).Ok? {
      var kh, kl := Kept(t.cols, hi), Kept(t.cols, lo);
      SubseqMembers(kh, kl);
      SubseqLength(kh, kl);
      SubseqAppend(kh, kl, NonNumeric(t.cols));
    }
  }

  lemma {:induction false} SubseqLength<T>(a: seq<T>, b: seq<T>)
    requires Subseq(a, b)
    ensures |a| <= |b|
    decreases |b|
  {
    if a != [] {
      if a[0] == b[0] && Subseq(a[1..], b[1..]) {
        SubseqLength(a[1..], b[1..]);
      } else {
        SubseqLength(a, b[1..]);
      }
    }
  }

  /** Three cities with votes for three parties; the party totals are 1110,
      505 and 300. */
  function Election(): Table {
    Table([CatCol("city", ["X", "Y", "Z"]),
           NumCol("partyA", [100.0, 10.0, 1000.0]),
           NumCol("partyB", [0.0, 5.0, 500.0]),
           NumCol("partyC", [50.0, 0.0, 250.0])], 3)
  }

  lemma ElectionTotals()
    ensures Total(Election().cols[1].nums) == 1110.0
    ensures Total(Election().cols[2].nums) == 505.0
    ensures Total(Election().cols[3].nums) == 300.0
  {
    var cols := Election().cols;
    assert cols[1].nums[1..][1..][1..] == [];
    assert cols[2].nums[1..][1..][1..] == [];
    assert cols[3].nums[1..][1..][1..] == [];
  }

  lemma ElectionKept()
    ensures var cols := Election().cols;
            && Kept(cols, 505.0) == [cols[1]]
            && Kept(cols, 504.0) == [cols[1], cols[2]]
            && NonNumeric(cols) == [cols[0]]
  {
    var cols := Election().cols;
    ElectionTotals();
    var c1 := cols[1..];
    var c2 := c1[1..];
    var c3 := c2[1..];
    assert c3 == [cols[3]] && c3[1..] == [];
    assert Kept(c3, 505.0) == [] && Kept(c3, 504.0) == [];
    assert Kept(c2, 505.0) == [] && Kept(c2, 504.0) == [cols[2]];
    assert Kept(c1, 505.0) == [cols[1]] && Kept(c1, 504.0) == [cols[1], cols[2]];
    assert NonNumeric(c3[1..]) == [] && NonNumeric(c3) == [] && NonNumeric(c2) == [] && NonNumeric(c1) == [];
  }

  /** The mask is strict: at threshold 505 the party whose total is exactly
      505 is dropped, only one party is left and the filter fails. */
  lemma ElectionAtTotal()
    ensures RemoveSparseColumns(Election(), 505.0) == Err(InsufficientNumericColumns)
  {
    ElectionKept();
  }

  /** Just below that total two parties pass, and the city column follows them. */
  lemma ElectionBelowTotal()
    ensures RemoveSparseColumns(Election(), 504.0)
            == Ok(Table([Election().cols[1], Election().cols[2], Election().cols[0]], 3))
  {
    ElectionKept();
    var cols := Election().cols;
    assert [cols[1], cols[2]] + [cols[0]] == [cols[1], cols[2], cols[0]];
  }
}
