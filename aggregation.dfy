/** `group_and_aggregate_data` (main.py:19-30): keep the numeric columns,
    assign the key column onto them, check that at least two columns result,
    then reduce every other column per distinct key value. */
module Aggregation {
  import opened Frames

  /** The reductions callers pass: "sum", "mean", "count", and the builtin
      `sum`, which pandas treats as "sum". */
  datatype AggFunc = Sum | Mean | Count

  /** The grouped frame: distinct key values as the row index, and the
      aggregated columns, one row per key value. */
  datatype Grouped = Grouped(keyName: string, index: seq<Value>, table: Table)

  /** `frame[name] = col`: the column labelled `name` is overwritten in
      place, or `col` is appended when there is none. */
  function Assign(cols: seq<Column>, name: string, col: Column): (r: seq<Column>)
    ensures Find(cols, name) < |cols| ==> |r| == |cols|
    ensures Find(cols, name) == |cols| ==> |r| == |cols| + 1
    ensures forall c :: c in r ==> c in cols || c == col
    // `col` lands on the first column labelled `name`, or at the end
    ensures Find(cols, name) < |cols| ==> r[Find(cols, name)] == col
    ensures Find(cols, name) == |cols| ==> r[|cols|] == col
    // every column with another label keeps its place
    ensures forall i :: 0 <= i < |cols| && cols[i].name != name ==> r[i] == cols[i]
  {
    var at := Find(cols, name);
    if at < |cols| then cols[at := col] else cols + [col]
  }

  /** The columns not labelled `name`, in order: what `groupby(name)`
      reduces, the key column itself becoming the index. */
  function Without(cols: seq<Column>, name: string): (r: seq<Column>)
    ensures forall c :: c in r <==> c in cols && c.name != name
  {
    if cols == [] then []
    else if cols[0].name != name then [cols[0]] + Without(cols[1..], name)
    else Without(cols[1..], name)
  }

  /** The distinct key values, in the order in which they first appear. */
  function Distinct(keys: seq<Value>): (r: seq<Value>)
    ensures NoDup(r)
    ensures forall v :: v in r <==> v in keys
  {
    if keys == [] then []
    else
      var init, last := keys[..|keys| - 1], keys[|keys| - 1];
      assert keys == init + [last];
      var d := Distinct(init);
      if last in d then d else d + [last]
  }

  /** Sum of `vals` over the rows whose key is `k`. */
  function SumWhere(vals: seq<real>, keys: seq<Value>, k: Value): (r: real)
    requires |vals| == |keys|
    ensures k !in keys ==> r == 0.0
  {
    if keys == [] then 0.0
    else (if keys[0] == k then vals[0] else 0.0) + SumWhere(vals[1..], keys[1..], k)
  }

  /** Number of rows whose key is `k`; a group is never empty. */
  function GroupSize(keys: seq<Value>, k: Value): (r: nat)
    ensures r > 0 <==> k in keys
    ensures r <= |keys|
  {
    if keys == [] then 0
    else (if keys[0] == k then 1 else 0) + GroupSize(keys[1..], k)
  }

  /** One aggregated cell: the reduction of `vals` over the group of `k`. */
  function Aggregate(f: AggFunc, vals: seq<real>, keys: seq<Value>, k: Value): (r: real)
    requires |vals| == |keys| && k in keys
    // a group is never empty, so its count is at least one
    ensures f == Count ==> r >= 1.0
    // a mean times its group's size gives back the group's sum
    ensures f == Mean ==> r * (GroupSize(keys, k) as real) == SumWhere(vals, keys, k)
  {
    match f
    case Sum => SumWhere(vals, keys, k)
    case Count => GroupSize(keys, k) as real
    case Mean => SumWhere(vals, keys, k) / (GroupSize(keys, k) as real)
  }

  /** One aggregated column: a cell per group, in the order of `groups`. */
  function AggregateAll(f: AggFunc, vals: seq<real>, keys: seq<Value>, groups: seq<Value>): (r: seq<real>)
    requires |vals| == |keys| && forall g :: g in groups ==> g in keys
    ensures |r| == |groups|
    ensures forall i :: 0 <= i < |groups| ==> r[i] == Aggregate(f, vals, keys, groups[i])
  {
    if groups == [] then []
    else [Aggregate(f, vals, keys, groups[0])] + AggregateAll(f, vals, keys, groups[1..])
  }

  /** `df[group_by_column]`: the first column labelled `key`. */
  function KeyColumn(t: Table, key: string): (r: Column)
    requires Has(t.cols, key)
    ensures r in t.cols && r.name == key
  {
    FindHas(t.cols, key);
    t.cols[Find(t.cols, key)]
  }

  /** The key column's cells, in row order. */
  function KeyCells(t: Table, key: string): seq<Value>
    requires Has(t.cols, key)
  {
    KeyColumn(t, key).Cells()
  }

  /** Whether the key column is one of the numeric columns. */
  predicate KeyIsNumeric(t: Table, key: string)
    requires Has(t.cols, key)
  {
    KeyColumn(t, key).NumCol?
  }

  /** The columns that get reduced: the numeric columns other than the key. */
  function Measured(t: Table, key: string): seq<Column> {
    Without(Numeric(t.cols), key)
  }

  /** `group_and_aggregate_data(df, group_by_column, agg_func)`. */
  function GroupAndAggregate(t: Table, key: string, f: AggFunc): (r: Result<Grouped>)
    requires Rectangular(t) && UniqueNames(t.cols)
    // an unknown key raises KeyError at main.py:24
    ensures r == Err(MissingColumn) <==> !Has(t.cols, key)
    // the guard counts the assigned key column: a non-numeric key adds one
    // column, a numeric key overwrites its own
    ensures Has(t.cols, key) ==>
              (r == Err(InsufficientNumericColumns) <==>
               |Numeric(t.cols)| + (if KeyIsNumeric(t, key) then 0 else 1) < 2)
    ensures r.Ok? ==> Has(t.cols, key) && r.value.keyName == key
    ensures r.Ok? ==> |r.value.table.cols| == |Measured(t, key)|
  {
    FindHas(t.cols, key);
    var at := Find(t.cols, key);
    if at == |t.cols| then Err(MissingColumn)
    else
      var keyCol := KeyColumn(t, key);
      var selected := Assign(Numeric(t.cols), key, keyCol);
      AssignedWidth(t, key);
      if |selected| < 2 then Err(InsufficientNumericColumns)
      else
        var keys := keyCol.Cells();
        var groups := Distinct(keys);
        var measured := Without(selected, key);
        MeasuredColumns(t, key);
        Ok(Grouped(key, groups, Table(
          seq(|measured|, j requires 0 <= j < |measured| =>
                NumCol(measured[j].name, AggregateAll(f, measured[j].nums, keys, groups))),
          |groups|)))
  }

  /** Assigning the key column adds a column exactly when the key is not
      numeric (main.py:23-24). */
  lemma AssignedWidth(t: Table, key: string)
    requires UniqueNames(t.cols) && Has(t.cols, key)
    ensures |Assign(Numeric(t.cols), key, KeyColumn(t, key))|
              == |Numeric(t.cols)| + (if KeyIsNumeric(t, key) then 0 else 1)
  {
    FindHas(t.cols, key);
    var keyCol := KeyColumn(t, key);
    var nums := Numeric(t.cols);
    FindHas(nums, key);
    if keyCol.NumCol? {
      assert keyCol in nums;
      var i :| 0 <= i < |nums| && nums[i] == keyCol;
      assert nums[i].name == key;
    } else if Has(nums, key) {
      var i :| 0 <= i < |nums| && nums[i].name == key;
      assert nums[i] in t.cols;
      DistinctColumnsDistinctNames(t.cols, nums[i], keyCol);
    }
  }

  /** The reduced columns are the numeric columns other than the key, and
      each has one cell per row of the table. */
  lemma MeasuredColumns(t: Table, key: string)
    requires Rectangular(t) && Has(t.cols, key)
    ensures var keyCol := KeyColumn(t, key);
            && Without(Assign(Numeric(t.cols), key, keyCol), key) == Measured(t, key)
            && (forall c :: c in Measured(t, key) ==> c.NumCol? && |c.nums| == t.height)
            && |keyCol.Cells()| == t.height
  {
    WithoutAssign(Numeric(t.cols), key, KeyColumn(t, key));
  }

  /** Assigning a column under `name` and then leaving out `name` is the
      same as leaving out `name` straight away. */
  lemma {:induction false} WithoutAssign(cols: seq<Column>, name: string, col: Column)
    requires col.name == name
    ensures Without(Assign(cols, name, col), name) == Without(cols, name)
  {
    var at := Find(cols, name);
    if at < |cols| {
      WithoutReplace(cols, at, col);
    } else {
      WithoutAppend(cols, [col], name);
      assert Without([col], name) == [];
      assert Without(cols, name) + [] == Without(cols, name);
    }
  }

  lemma {:induction false} WithoutReplace(cols: seq<Column>, at: nat, col: Column)
    requires at < |cols| && cols[at].name == col.name
    ensures Without(cols[at := col], col.name) == Without(cols, col.name)
  {
    if at > 0 {
      WithoutReplace(cols[1..], at - 1, col);
      assert cols[at := col][1..] == cols[1..][at - 1 := col];
    }
  }

  lemma {:induction false} WithoutAppend(a: seq<Column>, b: seq<Column>, name: string)
    ensures Without(a + b, name) == Without(a, name) + Without(b, name)
  {
    if a == [] {
      assert a + b == b;
    } else {
      WithoutAppend(a[1..], b, name);
      assert (a + b)[0] == a[0];
      assert (a + b)[1..] == a[1..] + b;
      var rest := Without(a[1..], name) + Without(b, name);
      if a[0].name != name {
        assert Without(a + b, name) == [a[0]] + rest;
        assert [a[0]] + rest == ([a[0]] + Without(a[1..], name)) + Without(b, name);
      } else {
        assert Without(a + b, name) == rest;
      }
    }
  }

  lemma {:induction false} WithoutSubseq(cols: seq<Column>, name: string)
    ensures Subseq(Without(cols, name), cols)
  {
    if cols != [] {
      WithoutSubseq(cols[1..], name);
      if cols[0].name != name {
        assert Without(cols, name)[1..] == Without(cols[1..], name);
      }
    }
  }

  /** The grouped frame has one row per distinct key value, its columns are
      all as long as its index, and its labels are unique. */
  lemma GroupAndAggregateRows(t: Table, key: string, f: AggFunc)
    requires Rectangular(t) && UniqueNames(t.cols)
    requires GroupAndAggregate(t, key, f).Ok?
    ensures var g := GroupAndAggregate(t, key, f).value;
            && NoDup(g.index)
            && (forall v :: v in g.index <==> v in KeyCells(t, key))
            && g.table.height == |g.index|
            && Rectangular(g.table)
            && UniqueNames(g.table.cols)
  {
    var g := GroupAndAggregate(t, key, f).value;
    MeasuredColumns(t, key);
    var m := Measured(t, key);
    forall c | c in g.table.cols ensures c.Len() == g.table.height {
      var j :| 0 <= j < |g.table.cols| && g.table.cols[j] == c;
      assert m[j] in m;
    }
    WithoutSubseq(Numeric(t.cols), key);
    SubseqUniqueNames(Numeric(t.cols), t.cols);
    SubseqUniqueNames(m, Numeric(t.cols));
  }

  /** Column j of the grouped frame aggregates the j-th numeric column other
      than the key, one cell per group in index order. */
  lemma GroupAndAggregateColumns(t: Table, key: string, f: AggFunc)
    requires Rectangular(t) && UniqueNames(t.cols)
    requires GroupAndAggregate(t, key, f).Ok?
    ensures var g := GroupAndAggregate(t, key, f).value;
            && |g.table.cols| == |Measured(t, key)|
            && forall j :: 0 <= j < |g.table.cols| ==>
                 var c, m := g.table.cols[j], Measured(t, key)[j];
                 && m.NumCol? && c.NumCol? && c.name == m.name
                 && |m.nums| == |KeyCells(t, key)|
                 && (forall v :: v in g.index ==> v in KeyCells(t, key))
                 && c.nums == AggregateAll(f, m.nums, KeyCells(t, key), g.index)
  {
    MeasuredColumns(t, key);
    var g := GroupAndAggregate(t, key, f).value;
    var keys := KeyCells(t, key);
    var ms := Measured(t, key);
    assert g.index == Distinct(keys);
    forall j | 0 <= j < |g.table.cols|
      ensures var c, m := g.table.cols[j], ms[j];
              && m.NumCol? && c.NumCol? && c.name == m.name && |m.nums| == |keys|
              && c.nums == AggregateAll(f, m.nums, keys, g.index)
    {
      assert ms[j] in ms;
    }
  }

  /** Sum, over a list of groups, of the per-group sums of `vals`. */
  function GroupSums(vals: seq<real>, keys: seq<Value>, groups: seq<Value>): real
    requires |vals| == |keys|
  {
    if groups == [] then 0.0 else SumWhere(vals, keys, groups[0]) + GroupSums(vals, keys, groups[1..])
  }

  lemma {:induction false} GroupSumsOfNoRows(groups: seq<Value>)
    ensures GroupSums([], [], groups) == 0.0
  {
    if groups != [] {
      GroupSumsOfNoRows(groups[1..]);
    }
  }

  /** Taking off the first row takes its value out of the group it belongs to. */
  lemma {:induction false} GroupSumsPeel(vals: seq<real>, keys: seq<Value>, groups: seq<Value>)
    requires |vals| == |keys| > 0 && NoDup(groups)
    ensures GroupSums(vals, keys, groups)
            == (if keys[0] in groups then vals[0] else 0.0) + GroupSums(vals[1..], keys[1..], groups)
  {
    if groups != [] {
      assert NoDup(groups[1..]) by {
        forall i, j | 0 <= i < j < |groups[1..]| ensures groups[1..][i] != groups[1..][j] {
          assert groups[i + 1] != groups[j + 1];
        }
      }
      GroupSumsPeel(vals, keys, groups[1..]);
      if keys[0] == groups[0] {
        assert keys[0] !in groups[1..] by {
          forall i | 0 <= i < |groups[1..]| ensures groups[1..][i] != groups[0] {
            assert groups[0] != groups[i + 1];
          }
        }
      } else {
        assert keys[0] in groups <==> keys[0] in groups[1..] by {
          assert groups == [groups[0]] + groups[1..];
        }
      }
    }
  }

  /** Groups that cover every key partition the rows: the group sums add up
      to the column total. */
  lemma {:induction false} PartitionTotal(vals: seq<real>, keys: seq<Value>, groups: seq<Value>)
    requires |vals| == |keys| && NoDup(groups)
    requires forall v :: v in keys ==> v in groups
    ensures GroupSums(vals, keys, groups) == Total(vals)
  {
    if keys == [] {
      GroupSumsOfNoRows(groups);
    } else {
      GroupSumsPeel(vals, keys, groups);
      assert forall v :: v in keys[1..] ==> v in keys;
      PartitionTotal(vals[1..], keys[1..], groups);
    }
  }

  lemma {:induction false} TotalOfSums(vals: seq<real>, keys: seq<Value>, groups: seq<Value>)
    requires |vals| == |keys| && forall g :: g in groups ==> g in keys
    ensures Total(AggregateAll(Sum, vals, keys, groups)) == GroupSums(vals, keys, groups)
  {
    if groups != [] {
      TotalOfSums(vals, keys, groups[1..]);
      assert AggregateAll(Sum, vals, keys, groups)[1..] == AggregateAll(Sum, vals, keys, groups[1..]);
    }
  }

  /** A column of ones, one per row. */
  function Ones(n: nat): (r: seq<real>)
    ensures |r| == n && Total(r) == n as real
  {
    if n == 0 then [] else [1.0] + Ones(n - 1)
  }

  /** A group's size is the sum of a column of ones over the group. */
  lemma {:induction false} GroupSizeAsSum(keys: seq<Value>, k: Value)
    ensures GroupSize(keys, k) as real == SumWhere(Ones(|keys|), keys, k)
  {
    if keys != [] {
      GroupSizeAsSum(keys[1..], k);
      assert Ones(|keys|)[1..] == Ones(|keys| - 1);
    }
  }

  lemma {:induction false} TotalOfCounts(keys: seq<Value>, groups: seq<Value>)
    requires forall g :: g in groups ==> g in keys
    ensures Total(AggregateAll(Count, Ones(|keys|), keys, groups)) == GroupSums(Ones(|keys|), keys, groups)
  {
    if groups != [] {
      TotalOfCounts(keys, groups[1..]);
      GroupSizeAsSum(keys, groups[0]);
      assert AggregateAll(Count, Ones(|keys|), keys, groups)[1..]
             == AggregateAll(Count, Ones(|keys|), keys, groups[1..]);
    }
  }

  /** With `sum`, every aggregated column adds up to the total of the column
      it came from: the groups split the rows without loss or overlap. */
  lemma GroupedSumsAddUp(t: Table, key: string, j: nat)
    requires Rectangular(t) && UniqueNames(t.cols)
    requires GroupAndAggregate(t, key, Sum).Ok?
    requires j < |GroupAndAggregate(t, key, Sum).value.table.cols|
    ensures var c, m := GroupAndAggregate(t, key, Sum).value.table.cols[j], Measured(t, key)[j];
            c.NumCol? && m.NumCol? && Total(c.nums) == Total(m.nums)
  {
    var g := GroupAndAggregate(t, key, Sum).value;
    GroupAndAggregateRows(t, key, Sum);
    GroupAndAggregateColumns(t, key, Sum);
    var m := Measured(t, key)[j];
    TotalOfSums(m.nums, KeyCells(t, key), g.index);
    PartitionTotal(m.nums, KeyCells(t, key), g.index);
  }

  /** With `count`, every aggregated column adds up to the number of rows. */
  lemma GroupedCountsAddUp(t: Table, key: string, j: nat)
    requires Rectangular(t) && UniqueNames(t.cols)
    requires GroupAndAggregate(t, key, Count).Ok?
    requires j < |GroupAndAggregate(t, key, Count).value.table.cols|
    ensures var c := GroupAndAggregate(t, key, Count).value.table.cols[j];
            c.NumCol? && Total(c.nums) == t.height as real
  {
    var g := GroupAndAggregate(t, key, Count).value;
    GroupAndAggregateRows(t, key, Count);
    GroupAndAggregateColumns(t, key, Count);
    var m := Measured(t, key)[j];
    var keys := KeyCells(t, key);
    MeasuredColumns(t, key);
    CountIgnoresValues(m.nums, Ones(|keys|), keys, g.index);
    TotalOfCounts(keys, g.index);
    PartitionTotal(Ones(|keys|), keys, g.index);
  }

  /** `count` does not look at the values it counts. */
  lemma {:induction false} CountIgnoresValues(a: seq<real>, b: seq<real>, keys: seq<Value>, groups: seq<Value>)
    requires |a| == |b| == |keys| && forall g :: g in groups ==> g in keys
    ensures AggregateAll(Count, a, keys, groups) == AggregateAll(Count, b, keys, groups)
  {
  }

  /** Sum over `groups` of each cell weighted by the size of its group. */
  function Weighted(cells: seq<real>, keys: seq<Value>, groups: seq<Value>): real
    requires |cells| == |groups|
  {
    if groups == [] then 0.0
    else cells[0] * (GroupSize(keys, groups[0]) as real) + Weighted(cells[1..], keys, groups[1..])
  }

  lemma {:induction false} WeightedMeans(vals: seq<real>, keys: seq<Value>, groups: seq<Value>)
    requires |vals| == |keys| && forall g :: g in groups ==> g in keys
    ensures Weighted(AggregateAll(Mean, vals, keys, groups), keys, groups) == GroupSums(vals, keys, groups)
  {
    if groups != [] {
      WeightedMeans(vals, keys, groups[1..]);
      var means := AggregateAll(Mean, vals, keys, groups);
      assert means[1..] == AggregateAll(Mean, vals, keys, groups[1..]);
      assert means[0] == Aggregate(Mean, vals, keys, groups[0]);
    }
  }

  /** With `mean`, weighting every cell by the size of its group gives back
      the total of the column it came from: each cell is its group's sum
      divided by its group's size. */
  lemma GroupedMeansWeighted(t: Table, key: string, j: nat)
    requires Rectangular(t) && UniqueNames(t.cols)
    requires GroupAndAggregate(t, key, Mean).Ok?
    requires j < |GroupAndAggregate(t, key, Mean).value.table.cols|
    ensures var g := GroupAndAggregate(t, key, Mean).value;
            var c, m := g.table.cols[j], Measured(t, key)[j];
            && c.NumCol? && m.NumCol? && |c.nums| == |g.index|
            && Weighted(c.nums, KeyCells(t, key), g.index) == Total(m.nums)
  {
    var g := GroupAndAggregate(t, key, Mean).value;
    GroupAndAggregateRows(t, key, Mean);
    GroupAndAggregateColumns(t, key, Mean);
    var m := Measured(t, key)[j];
    WeightedMeans(m.nums, KeyCells(t, key), g.index);
    PartitionTotal(m.nums, KeyCells(t, key), g.index);
  }
}
