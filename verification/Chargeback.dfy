/** Report aggregation: transformData fills three dictionaries in nested loops over rows and columns.
    Columns hold exact numbers or text that is not a number. */
module Chargeback {
  import opened Sorting

  datatype Value = Num(v: real) | Text(s: string)
  datatype Cell = Cell(col: string, value: Value)
  type Row = seq<Cell>

  /** How rows are grouped: the text of the grouping column. */
  type Key = Row -> string

  function Amount(row: Row, k: string): real {
    if row == [] then 0.0
    else (if row[0].col == k && row[0].value.Num? then row[0].value.v else 0.0) + Amount(row[1..], k)
  }

  predicate HasNumber(row: Row, k: string) {
    exists i :: 0 <= i < |row| && row[i].col == k && row[i].value.Num?
  }

  /** The sum of column k over the rows of group g. */
  function GroupSum(data: seq<Row>, key: Key, g: string, k: string): real {
    if data == [] then 0.0
    else
      var n := |data| - 1;
      GroupSum(data[..n], key, g, k) + (if key(data[n]) == g then Amount(data[n], k) else 0.0)
  }

  function Total(data: seq<Row>, k: string): real {
    if data == [] then 0.0 else Total(data[..|data| - 1], k) + Amount(data[|data| - 1], k)
  }

  function Max(a: real, b: real): real {
    if a >= b then a else b
  }

  /** The largest value any group's sum of column k had after any cell, or zero. */
  function RowPeak(row: Row, k: string, start: real, peak: real): real {
    if row == [] then peak
    else
      var n := |row| - 1;
      var before := RowPeak(row[..n], k, start, peak);
      if row[n].col == k && row[n].value.Num? then Max(before, start + Amount(row[..n], k) + row[n].value.v)
      else before
  }

  function Peak(data: seq<Row>, key: Key, k: string): real {
    if data == [] then 0.0
    else
      var n := |data| - 1;
      RowPeak(data[n], k, GroupSum(data[..n], key, key(data[n]), k), Peak(data[..n], key, k))
  }

  type Sums = map<string, real>

  function At(m: Sums, k: string): real {
    if k in m then m[k] else 0.0
  }

  function AtGroup(m: map<string, Sums>, g: string): Sums {
    if g in m then m[g] else map[]
  }

  lemma {:induction false} AmountSnoc(row: Row, c: Cell, k: string)
    ensures Amount(row + [c], k) == Amount(row, k) + (if c.col == k && c.value.Num? then c.value.v else 0.0)
    decreases |row|
  {
    if row == [] {
      assert (row + [c])[1..] == [];
    } else {
      assert (row + [c])[1..] == row[1..] + [c];
      AmountSnoc(row[1..], c, k);
    }
  }

  function AddCell(m: Sums, c: Cell): Sums {
    if c.value.Num? then m[c.col := At(m, c.col) + c.value.v] else m
  }

  function PeakCell(peaks: Sums, sums: Sums, c: Cell): Sums {
    if c.value.Num? && At(sums, c.col) > At(peaks, c.col) then peaks[c.col := At(sums, c.col)] else peaks
  }

  function AddCells(m: Sums, row: Row): Sums {
    if row == [] then m else AddCell(AddCells(m, row[..|row| - 1]), row[|row| - 1])
  }

  function PeakCells(peaks: Sums, sums: Sums, row: Row): Sums {
    if row == [] then peaks
    else PeakCell(PeakCells(peaks, sums, row[..|row| - 1]), AddCells(sums, row), row[|row| - 1])
  }

  lemma CellsSnoc(m: Sums, peaks: Sums, sums: Sums, row: Row, c: Cell)
    ensures AddCells(m, row + [c]) == AddCell(AddCells(m, row), c)
    ensures PeakCells(peaks, sums, row + [c]) == PeakCell(PeakCells(peaks, sums, row), AddCells(sums, row + [c]), c)
  {
    assert (row + [c])[..|row|] == row;
  }

  /** The inner loop: the cells of one row. */
  method AddRow(row: Row, sums: Sums, totals: Sums, maxValues: Sums)
    returns (sums': Sums, totals': Sums, maxValues': Sums)
    ensures sums' == AddCells(sums, row) && totals' == AddCells(totals, row)
    ensures maxValues' == PeakCells(maxValues, sums, row)
  {
    sums', totals', maxValues' := sums, totals, maxValues;
    var i := 0;
    while i < |row|
      invariant 0 <= i <= |row|
      invariant sums' == AddCells(sums, row[..i]) && totals' == AddCells(totals, row[..i])
      invariant maxValues' == PeakCells(maxValues, sums, row[..i])
    {
      assert row[..i + 1] == row[..i] + [row[i]];
      CellsSnoc(sums, maxValues, sums, row[..i], row[i]);
      CellsSnoc(totals, maxValues, sums, row[..i], row[i]);
      sums', totals', maxValues' := CountCell(row[i], sums', totals', maxValues');
      i := i + 1;
    }
    assert row[..i] == row;
  }

  /** One cell: skip text, start missing entries at zero, add, and raise the maximum if exceeded. */
  method CountCell(c: Cell, sums: Sums, totals: Sums, maxValues: Sums)
    returns (sums': Sums, totals': Sums, maxValues': Sums)
    ensures sums' == AddCell(sums, c) && totals' == AddCell(totals, c)
    ensures maxValues' == PeakCell(maxValues, sums', c)
  {
    sums', totals', maxValues' := sums, totals, maxValues;
    if c.value.Text? {
      return;
    }
    var k := c.col;
    if k !in sums' {
      sums' := sums'[k := 0.0];
    }
    sums' := sums'[k := sums'[k] + c.value.v];
    if k !in totals' {
      totals' := totals'[k := 0.0];
    }
    totals' := totals'[k := totals'[k] + c.value.v];
    if sums'[k] > At(maxValues', k) {
      maxValues' := maxValues'[k := sums'[k]];
    }
  }

  lemma {:induction false} AddCellsAt(m: Sums, row: Row, k: string)
    ensures At(AddCells(m, row), k) == At(m, k) + Amount(row, k)
    ensures k in AddCells(m, row) <==> k in m || HasNumber(row, k)
    decreases |row|
  {
    if row != [] {
      var n := |row| - 1;
      assert row == row[..n] + [row[n]];
      AddCellsAt(m, row[..n], k);
      AmountSnoc(row[..n], row[n], k);
      NumberSnoc(row[..n], row[n], k);
    }
  }

  /** A maximum is recorded exactly when it is positive. */
  predicate Recorded(peaks: Sums, k: string) {
    At(peaks, k) >= 0.0 && (k in peaks <==> At(peaks, k) > 0.0)
  }

  lemma {:induction false} PeakCellsAt(peaks: Sums, sums: Sums, row: Row, k: string)
    ensures At(PeakCells(peaks, sums, row), k) == RowPeak(row, k, At(sums, k), At(peaks, k))
    ensures Recorded(peaks, k) ==> Recorded(PeakCells(peaks, sums, row), k)
    decreases |row|
  {
    if row != [] {
      var n := |row| - 1;
      assert row == row[..n] + [row[n]];
      PeakCellsAt(peaks, sums, row[..n], k);
      AddCellsAt(sums, row, k);
      AmountSnoc(row[..n], row[n], k);
    }
  }

  lemma NumberSnoc(row: Row, c: Cell, k: string)
    ensures HasNumber(row + [c], k) <==> HasNumber(row, k) || (c.col == k && c.value.Num?)
  {
    var r := row + [c];
    if HasNumber(row, k) {
      var i :| 0 <= i < |row| && row[i].col == k && row[i].value.Num?;
      assert r[i].col == k;
    }
    assert r[|row|] == c;
  }

  predicate Occurs(data: seq<Row>, key: Key, g: string) {
    exists i :: 0 <= i < |data| && key(data[i]) == g
  }

  /** Some row of group g has a number in column k. */
  predicate Column(data: seq<Row>, key: Key, g: string, k: string) {
    exists i :: 0 <= i < |data| && key(data[i]) == g && HasNumber(data[i], k)
  }

  lemma ColumnSnoc(data: seq<Row>, row: Row, key: Key)
    ensures forall g, k ::
              Column(data + [row], key, g, k) <==> Column(data, key, g, k) || (key(row) == g && HasNumber(row, k))
  {
    var d := data + [row];
    forall g, k
      ensures Column(d, key, g, k) <==> Column(data, key, g, k) || (key(row) == g && HasNumber(row, k))
    {
      if Column(data, key, g, k) {
        var i :| 0 <= i < |data| && key(data[i]) == g && HasNumber(data[i], k);
        assert key(d[i]) == g && HasNumber(d[i], k);
      }
      assert d[|data|] == row;
    }
  }

  /** Some row has a number in column k. */
  predicate HasColumn(data: seq<Row>, k: string) {
    exists i :: 0 <= i < |data| && HasNumber(data[i], k)
  }

  lemma HasColumnSnoc(data: seq<Row>, row: Row, k: string)
    ensures HasColumn(data + [row], k) <==> HasColumn(data, k) || HasNumber(row, k)
  {
    var d := data + [row];
    if HasColumn(data, k) {
      var i :| 0 <= i < |data| && HasNumber(data[i], k);
      assert HasNumber(d[i], k);
    }
    assert d[|data|] == row;
  }

  /** Which groups and columns the row dictionary has, and what it holds. */
  ghost predicate Reduced(reduced: map<string, Sums>, data: seq<Row>, key: Key) {
    && (forall g :: g in reduced <==> Occurs(data, key, g))
    && (forall g, k :: k in AtGroup(reduced, g) <==> Column(data, key, g, k))
    && (forall g, k :: At(AtGroup(reduced, g), k) == GroupSum(data, key, g, k))
  }

  ghost predicate Summarised(totals: Sums, maxValues: Sums, data: seq<Row>, key: Key) {
    && (forall k :: k in totals <==> HasColumn(data, k))
    && (forall k :: At(totals, k) == Total(data, k))
    && (forall k :: k in maxValues <==> Peak(data, key, k) > 0.0)
    && (forall k :: At(maxValues, k) == Peak(data, key, k) >= 0.0)
  }

  /** Every key and every cell of the three dictionaries, for any data. */
  method TransformData(data: seq<Row>, key: Key)
    returns (reduced: map<string, Sums>, maxValues: Sums, totals: Sums)
    ensures Reduced(reduced, data, key)
    ensures Summarised(totals, maxValues, data, key)
  {
    reduced, maxValues, totals := map[], map[], map[];
    var i := 0;
    while i < |data|
      invariant 0 <= i <= |data|
      invariant Reduced(reduced, data[..i], key)
      invariant Summarised(totals, maxValues, data[..i], key)
    {
      reduced, maxValues, totals := TakeRow(data, i, key, reduced, maxValues, totals);
      i := i + 1;
    }
    assert data[..i] == data;
  }

  /** The outer loop's body: row i, after the rows before it. */
  method TakeRow(data: seq<Row>, i: nat, key: Key, reduced: map<string, Sums>, maxValues: Sums, totals: Sums)
    returns (reduced': map<string, Sums>, maxValues': Sums, totals': Sums)
    requires i < |data|
    requires Reduced(reduced, data[..i], key) && Summarised(totals, maxValues, data[..i], key)
    ensures Reduced(reduced', data[..i + 1], key)
    ensures Summarised(totals', maxValues', data[..i + 1], key)
  {
    var row := data[i];
    var g := key(row);
    ghost var past := data[..i];
    assert data[..i + 1] == past + [row];
    ReducedStep(reduced, past, row, key);
    SummarisedStep(reduced, totals, maxValues, past, row, key);
    reduced' := if g in reduced then reduced else reduced[g := map[]];
    var sums;
    sums, totals', maxValues' := AddRow(row, reduced'[g], totals, maxValues);
    reduced' := reduced'[g := sums];
    assert reduced' == reduced[g := AddCells(AtGroup(reduced, g), row)];
  }

  lemma ReducedStep(reduced: map<string, Sums>, data: seq<Row>, row: Row, key: Key)
    requires Reduced(reduced, data, key)
    ensures Reduced(reduced[key(row) := AddCells(AtGroup(reduced, key(row)), row)], data + [row], key)
  {
    var g := key(row);
    var r := reduced[g := AddCells(AtGroup(reduced, g), row)];
    assert (data + [row])[..|data|] == data;
    forall h ensures h in r <==> Occurs(data + [row], key, h) {
      OccursSnoc(data, row, key, h);
    }
    ColumnSnoc(data, row, key);
    forall h, k
      ensures k in AtGroup(r, h) <==> Column(data + [row], key, h, k)
      ensures At(AtGroup(r, h), k) == GroupSum(data + [row], key, h, k)
    {
      if h == g {
        AddCellsAt(AtGroup(reduced, g), row, k);
      } else {
        assert AtGroup(r, h) == AtGroup(reduced, h);
      }
    }
  }

  lemma SummarisedStep(reduced: map<string, Sums>, totals: Sums, maxValues: Sums, data: seq<Row>, row: Row, key: Key)
    requires Reduced(reduced, data, key) && Summarised(totals, maxValues, data, key)
    ensures Summarised(AddCells(totals, row), PeakCells(maxValues, AtGroup(reduced, key(row)), row), data + [row], key)
  {
    assert (data + [row])[..|data|] == data;
    var totals', peaks' := AddCells(totals, row), PeakCells(maxValues, AtGroup(reduced, key(row)), row);
    forall k
      ensures At(totals', k) == Total(data + [row], k)
      ensures k in totals' <==> HasColumn(data + [row], k)
    {
      AddCellsAt(totals, row, k);
      HasColumnSnoc(data, row, k);
    }
    forall k
      ensures At(peaks', k) == Peak(data + [row], key, k) >= 0.0
      ensures k in peaks' <==> Peak(data + [row], key, k) > 0.0
    {
      assert Recorded(maxValues, k);
      PeakCellsAt(maxValues, AtGroup(reduced, key(row)), row, k);
    }
  }

  lemma OccursSnoc(data: seq<Row>, row: Row, key: Key, g: string)
    ensures Occurs(data + [row], key, g) <==> Occurs(data, key, g) || key(row) == g
  {
    var d := data + [row];
    if Occurs(data, key, g) {
      var i :| 0 <= i < |data| && key(data[i]) == g;
      assert key(d[i]) == g;
    }
    assert d[|data|] == row;
  }

  // ---- conservation ----

  function SumOver(groups: seq<string>, data: seq<Row>, key: Key, k: string): real {
    if groups == [] then 0.0 else GroupSum(data, key, groups[0], k) + SumOver(groups[1..], data, key, k)
  }

  ghost predicate Distinct(groups: seq<string>) {
    forall i, j :: 0 <= i < j < |groups| ==> groups[i] != groups[j]
  }

  lemma {:induction false} OneRowOver(groups: seq<string>, data: seq<Row>, row: Row, key: Key, k: string)
    requires Distinct(groups)
    ensures SumOver(groups, data + [row], key, k) ==
            SumOver(groups, data, key, k) + (if key(row) in groups then Amount(row, k) else 0.0)
    decreases |groups|
  {
    if groups != [] {
      assert (data + [row])[..|data|] == data;
      assert groups == [groups[0]] + groups[1..];
      OneRowOver(groups[1..], data, row, key, k);
    }
  }

  lemma {:induction false} EmptyOver(groups: seq<string>, key: Key, k: string)
    ensures SumOver(groups, [], key, k) == 0.0
    decreases |groups|
  {
    if groups != [] {
      EmptyOver(groups[1..], key, k);
    }
  }

  /** The group sums of a column add up to its total, for any list of groups that names every group once. */
  lemma {:induction false} GroupsAddUp(groups: seq<string>, data: seq<Row>, key: Key, k: string)
    requires Distinct(groups) && forall g :: Occurs(data, key, g) ==> g in groups
    ensures SumOver(groups, data, key, k) == Total(data, k)
    decreases |data|
  {
    if data == [] {
      EmptyOver(groups, key, k);
    } else {
      var n := |data| - 1;
      assert data == data[..n] + [data[n]];
      forall g | Occurs(data[..n], key, g) ensures g in groups {
        OccursSnoc(data[..n], data[n], key, g);
      }
      GroupsAddUp(groups, data[..n], key, k);
      OneRowOver(groups, data[..n], data[n], key, k);
      assert Occurs(data, key, key(data[n]));
    }
  }

  // ---- row order ----

  lemma {:induction false} SumsConcat(a: seq<Row>, b: seq<Row>, key: Key, g: string, k: string)
    ensures GroupSum(a + b, key, g, k) == GroupSum(a, key, g, k) + GroupSum(b, key, g, k)
    ensures Total(a + b, k) == Total(a, k) + Total(b, k)
    decreases |b|
  {
    if b == [] {
      assert a + b == a;
    } else {
      assert (a + b)[..|a + b| - 1] == a + b[..|b| - 1];
      SumsConcat(a, b[..|b| - 1], key, g, k);
    }
  }

  /** No dictionary entry depends on the order of the rows. */
  lemma {:induction false} RowOrderIrrelevant(a: seq<Row>, b: seq<Row>, key: Key, g: string, k: string)
    requires multiset(a) == multiset(b)
    ensures GroupSum(a, key, g, k) == GroupSum(b, key, g, k) && Total(a, k) == Total(b, k)
    decreases |a|
  {
    SameMembers(a, b);
    if a != [] {
      var x, tail := a[0], a[1..];
      assert a == [x] + tail;
      assert x in a && x in b;
      var i :| 0 <= i < |b| && b[i] == x;
      var l, r := b[..i], b[i + 1..];
      assert b == l + [x] + r;
      WithoutOne(tail, l, r, x);
      RowOrderIrrelevant(tail, l + r, key, g, k);
      SumsConcat([x], tail, key, g, k);
      SumsConcat(l + [x], r, key, g, k);
      SumsConcat(l, [x], key, g, k);
      SumsConcat(l, r, key, g, k);
    }
  }

  // ---- maxima ----

  ghost predicate NonNegative(data: seq<Row>) {
    forall i, j :: 0 <= i < |data| && 0 <= j < |data[i]| && data[i][j].value.Num? ==> data[i][j].value.v >= 0.0
  }

  ghost predicate NonNegativeRow(row: Row) {
    forall j :: 0 <= j < |row| && row[j].value.Num? ==> row[j].value.v >= 0.0
  }

  lemma {:induction false} RowPeakIsLast(row: Row, k: string, start: real, peak: real)
    requires NonNegativeRow(row) && peak >= start
    ensures Amount(row, k) >= 0.0
    ensures RowPeak(row, k, start, peak) == Max(peak, start + Amount(row, k))
    decreases |row|
  {
    if row != [] {
      var n := |row| - 1;
      RowPeakIsLast(row[..n], k, start, peak);
      assert row == row[..n] + [row[n]];
      AmountSnoc(row[..n], row[n], k);
    }
  }

  /** For non-negative data the recorded maximum of a column is the largest group sum. */
  lemma {:induction false} PeakIsMaximum(data: seq<Row>, key: Key, k: string)
    requires NonNegative(data)
    ensures forall g :: 0.0 <= GroupSum(data, key, g, k) <= Peak(data, key, k)
    ensures Peak(data, key, k) == 0.0 ||
            exists g :: Occurs(data, key, g) && GroupSum(data, key, g, k) == Peak(data, key, k)
    decreases |data|
  {
    if data != [] {
      var n := |data| - 1;
      var h := key(data[n]);
      assert data == data[..n] + [data[n]];
      assert forall i :: 0 <= i < n ==> data[..n][i] == data[i];
      PeakIsMaximum(data[..n], key, k);
      RowPeakIsLast(data[n], k, GroupSum(data[..n], key, h, k), Peak(data[..n], key, k));
      forall g ensures Occurs(data, key, g) <==> Occurs(data[..n], key, g) || g == h {
        OccursSnoc(data[..n], data[n], key, g);
      }
      if Peak(data, key, k) != 0.0 {
        if Peak(data, key, k) == GroupSum(data, key, h, k) {
          assert Occurs(data, key, h);
        } else {
          var g :| Occurs(data[..n], key, g) && GroupSum(data[..n], key, g, k) == Peak(data[..n], key, k);
          assert g != h;
          assert GroupSum(data, key, g, k) == Peak(data, key, k);
        }
      }
    }
  }

  /** For non-negative data the recorded maxima do not depend on the order of the rows either. */
  lemma PeakOrderIrrelevant(a: seq<Row>, b: seq<Row>, key: Key, k: string)
    requires multiset(a) == multiset(b) && NonNegative(a)
    ensures Peak(a, key, k) == Peak(b, key, k)
  {
    SameMembers(a, b);
    forall i, j | 0 <= i < |b| && 0 <= j < |b[i]| && b[i][j].value.Num? ensures b[i][j].value.v >= 0.0 {
      assert b[i] in b && b[i] in a;
      var m :| 0 <= m < |a| && a[m] == b[i];
      assert a[m][j].value.v >= 0.0;
    }
    PeakAtMost(a, b, key, k);
    PeakAtMost(b, a, key, k);
  }

  lemma PeakAtMost(a: seq<Row>, b: seq<Row>, key: Key, k: string)
    requires multiset(a) == multiset(b) && NonNegative(a) && NonNegative(b)
    ensures Peak(a, key, k) <= Peak(b, key, k)
  {
    PeakIsMaximum(a, key, k);
    PeakIsMaximum(b, key, k);
    if Peak(a, key, k) != 0.0 {
      var g :| Occurs(a, key, g) && GroupSum(a, key, g, k) == Peak(a, key, k);
      RowOrderIrrelevant(a, b, key, g, k);
    } else {
      assert GroupSum(b, key, "", k) <= Peak(b, key, k);
    }
  }

  // ---- maxima with negative amounts ----

  /** A row is an object: it has each column once. */
  ghost predicate Objects(data: seq<Row>) {
    forall i :: 0 <= i < |data| ==> IsObject(data[i])
  }

  ghost predicate IsObject(row: Row) {
    forall i, j :: 0 <= i < j < |row| ==> row[i].col != row[j].col
  }

  lemma {:induction false} NoNumber(row: Row, k: string)
    requires forall i :: 0 <= i < |row| ==> row[i].col != k
    ensures Amount(row, k) == 0.0
    ensures forall start, peak :: RowPeak(row, k, start, peak) == peak
    decreases |row|
  {
    if row != [] {
      NoNumber(row[1..], k);
      NoNumber(row[..|row| - 1], k);
    }
  }

  /** A row of an object has one turn for the column, if any. */
  lemma {:induction false} ObjectPeak(row: Row, k: string, start: real, peak: real)
    requires IsObject(row) && start <= peak
    ensures RowPeak(row, k, start, peak) == Max(peak, start + Amount(row, k))
    decreases |row|
  {
    if row != [] {
      var n := |row| - 1;
      assert row == row[..n] + [row[n]];
      AmountSnoc(row[..n], row[n], k);
      if row[n].col == k {
        NoNumber(row[..n], k);
      } else {
        ObjectPeak(row[..n], k, start, peak);
      }
    }
  }

  /** The sum of a group after the first n rows. */
  function SumAfter(data: seq<Row>, n: nat, key: Key, g: string, k: string): real
    requires n <= |data|
  {
    GroupSum(data[..n], key, g, k)
  }

  ghost predicate Bounds(data: seq<Row>, key: Key, k: string, peak: real) {
    forall n, g :: 0 <= n <= |data| ==> SumAfter(data, n, key, g, k) <= peak
  }

  ghost predicate Reached(data: seq<Row>, key: Key, k: string, peak: real) {
    exists n, g :: 0 <= n <= |data| && SumAfter(data, n, key, g, k) == peak
  }

  lemma PrefixSums(data: seq<Row>, row: Row, key: Key, k: string)
    ensures forall n, g :: 0 <= n <= |data| ==> SumAfter(data + [row], n, key, g, k) == SumAfter(data, n, key, g, k)
    ensures forall g :: SumAfter(data, |data|, key, g, k) == GroupSum(data, key, g, k)
  {
    assert forall n :: 0 <= n <= |data| ==> (data + [row])[..n] == data[..n];
    assert data[..|data|] == data;
  }

  /** The recorded maximum bounds every sum that any group ever had, and is zero or one of them. */
  lemma {:induction false} PeakOfPrefixes(data: seq<Row>, key: Key, k: string)
    requires Objects(data)
    ensures Peak(data, key, k) >= 0.0 && Bounds(data, key, k, Peak(data, key, k))
    ensures Peak(data, key, k) == 0.0 || Reached(data, key, k, Peak(data, key, k))
    decreases |data|
  {
    if data != [] {
      var m := |data| - 1;
      PeakOfPrefixes(data[..m], key, k);
      assert data == data[..m] + [data[m]];
      PeakStep(data[..m], data[m], key, k);
    }
  }

  lemma PeakStep(data: seq<Row>, row: Row, key: Key, k: string)
    requires IsObject(row)
    requires var peak := Peak(data, key, k);
      peak >= 0.0 && Bounds(data, key, k, peak) && (peak == 0.0 || Reached(data, key, k, peak))
    ensures var peak := Peak(data + [row], key, k);
      peak >= 0.0 && Bounds(data + [row], key, k, peak) && (peak == 0.0 || Reached(data + [row], key, k, peak))
  {
    var d, before := data + [row], Peak(data, key, k);
    var h, m := key(row), |data|;
    assert d[..m] == data;
    PrefixSums(data, row, key, k);
    assert SumAfter(data, m, key, h, k) <= before;
    ObjectPeak(row, k, GroupSum(data, key, h, k), before);
    assert d[..m + 1] == d;
    var peak := Peak(d, key, k);
    forall n, g | 0 <= n <= |d| ensures SumAfter(d, n, key, g, k) <= peak {
      if n <= m {
        assert SumAfter(data, n, key, g, k) <= before;
      } else {
        assert SumAfter(data, m, key, g, k) <= before;
      }
    }
    if peak == before {
      if peak != 0.0 {
        var n, g :| 0 <= n <= m && SumAfter(data, n, key, g, k) == before;
        assert SumAfter(d, n, key, g, k) == peak;
      }
    } else {
      assert SumAfter(d, m + 1, key, h, k) == peak;
    }
  }

  ghost predicate SomeGroupHas(data: seq<Row>, key: Key, k: string, amount: real) {
    exists g :: amount <= GroupSum(data, key, g, k)
  }

  /** Whatever positive amount a group had on the way, some group has at least that much in the end. */
  ghost predicate EndsHighest(data: seq<Row>, key: Key, k: string) {
    forall n, g :: 0 <= n <= |data| && SumAfter(data, n, key, g, k) > 0.0 ==>
      SomeGroupHas(data, key, k, SumAfter(data, n, key, g, k))
  }

  /** No group sum exceeds the recorded maximum, and the maximum, if any, is a group sum exactly for data
      that end highest. */
  lemma PeakIsMaximumExactly(data: seq<Row>, key: Key, k: string)
    requires Objects(data)
    ensures forall g :: GroupSum(data, key, g, k) <= Peak(data, key, k)
    ensures Peak(data, key, k) == 0.0 || (exists g :: GroupSum(data, key, g, k) == Peak(data, key, k)) <==>
            EndsHighest(data, key, k)
  {
    var peak := Peak(data, key, k);
    PeakOfPrefixes(data, key, k);
    PrefixSums(data, [], key, k);
    forall g ensures GroupSum(data, key, g, k) <= peak {
      assert SumAfter(data, |data|, key, g, k) <= peak;
    }
    if g :| GroupSum(data, key, g, k) == peak {
      forall n, h | 0 <= n <= |data| ensures SomeGroupHas(data, key, k, SumAfter(data, n, key, h, k)) {
        assert SumAfter(data, n, key, h, k) <= GroupSum(data, key, g, k);
      }
    }
    if EndsHighest(data, key, k) && peak != 0.0 {
      var n, g :| 0 <= n <= |data| && SumAfter(data, n, key, g, k) == peak;
      assert SomeGroupHas(data, key, k, peak);
      var h :| peak <= GroupSum(data, key, h, k);
      assert GroupSum(data, key, h, k) == peak;
    }
  }

  const GAIN: Row := [Cell("pod", Text("p")), Cell("cost", Num(5.0))]
  const LOSS: Row := [Cell("pod", Text("p")), Cell("cost", Num(-3.0))]

  /** With a negative amount the recorded maximum can exceed every group sum: 5 against 2 here, for any
      grouping that puts both rows in one group. */
  lemma NegativeLeavesPeak(key: Key)
    requires key(GAIN) == key(LOSS)
    ensures Objects([GAIN, LOSS]) && Peak([GAIN, LOSS], key, "cost") == 5.0
    ensures forall g :: GroupSum([GAIN, LOSS], key, g, "cost") == if g == key(GAIN) then 2.0 else 0.0
  {
    var data, k := [GAIN, LOSS], "cost";
    PairAmount(GAIN, k);
    PairAmount(LOSS, k);
    assert data[..1] == [GAIN] && [GAIN][..0] == [];
    ObjectPeak(GAIN, k, 0.0, 0.0);
    assert Peak([GAIN], key, k) == 5.0;
    forall g ensures GroupSum(data, key, g, k) == if g == key(GAIN) then 2.0 else 0.0 {
      assert GroupSum([GAIN], key, g, k) == if g == key(GAIN) then 5.0 else 0.0;
    }
    ObjectPeak(LOSS, k, 5.0, 5.0);
  }

  lemma PairAmount(row: Row, k: string)
    requires |row| == 2 && row[0].value.Text? && row[1].col == k && row[1].value.Num?
    ensures Amount(row, k) == row[1].value.v
  {
    assert row[1..] == [row[1]] && row[1..][1..] == [];
    assert Amount(row[1..], k) == row[1].value.v + Amount([], k);
  }

  /** No bar exceeds 100 percent of its column's width, whatever the grouping and the signs; for
      non-negative data none is below zero. */
  lemma {:induction false} BarsFit(data: seq<Row>, key: Key, g: string, k: string)
    requires (Objects(data) || NonNegative(data)) && Peak(data, key, k) > 0.0
    ensures 100.0 * GroupSum(data, key, g, k) / Peak(data, key, k) <= 100.0
    ensures NonNegative(data) ==> 0.0 <= 100.0 * GroupSum(data, key, g, k) / Peak(data, key, k)
  {
    var s, p := GroupSum(data, key, g, k), Peak(data, key, k);
    if NonNegative(data) {
      PeakIsMaximum(data, key, k);
    } else {
      PeakIsMaximumExactly(data, key, k);
    }
    Ratio(s, p);
  }

  lemma Ratio(s: real, p: real)
    requires s <= p && p > 0.0
    ensures 100.0 * s / p <= 100.0
    ensures 0.0 <= s ==> 0.0 <= 100.0 * s / p
  {
    var q := 100.0 * s / p;
    assert q * p == 100.0 * s;
    if q > 100.0 {
      PositiveProduct(q - 100.0, p);
    } else if q < 0.0 {
      PositiveProduct(-q, p);
    }
  }

  lemma PositiveProduct(x: real, y: real)
    requires x > 0.0 && y > 0.0
    ensures x * y > 0.0
  {
  }
}
