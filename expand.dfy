/** The row expansion: every table row becomes one point record, or, when
    depth columns are chosen, one record per depth column whose cell is
    present, with z lowered by the depth read from that column's name. */
module Expander {
  import opened Common
  import opened Strings
  import opened Frame

  /** The column roles one conversion works with: the three coordinate
      columns, the attributes carried by each record, and the depth columns. */
  datatype Plan = Plan(x: string, y: string, z: string, fields: seq<string>, depth: seq<string>)

  /** Every column the plan names is a column of the table. */
  predicate Fits(t: Table, plan: Plan) {
    && WellFormed(t)
    && plan.x in t.names && plan.y in t.names && plan.z in t.names
    && (forall c | c in plan.fields :: c in t.names)
    && (forall c | c in plan.depth :: c in t.names)
  }

  /** The depth columns before position `j` all hold a digit in their name. */
  predicate ParsedBefore(cols: seq<string>, j: nat)
    requires j <= |cols|
  {
    forall k | 0 <= k < j :: FirstDigitRun(cols[k]).Some?
  }

  /** Every depth column's name holds a digit, so its depth can be read. */
  predicate AllParse(cols: seq<string>) {
    ParsedBefore(cols, |cols|)
  }

  /** The divisor that turns the number in a depth column's name into a
      z offset. */
  const DepthScale: real := 100.0

  /** `z - depth / 100`: a missing z stays missing. A numeric-kinded column
      holds no text, so a z cell is a number or missing. */
  function Shifted(z: Cell, depth: nat): (r: Cell)
    ensures r.Null? <==> z.Null?
    ensures z.Num? ==> r.Num? && r.r + depth as real / DepthScale == z.r
    ensures !z.Num? ==> r == z
  {
    if z.Num? then Num(z.r - depth as real / DepthScale) else z
  }

  /** The row's cells in the carried attribute columns, in their order. */
  function AttrValues(t: Table, plan: Plan, i: nat): (vs: seq<Cell>)
    requires Fits(t, plan) && i < |t.rows|
    ensures |vs| == |plan.fields|
    ensures forall k | 0 <= k < |plan.fields| :: vs[k] == At(t, i, plan.fields[k])
  {
    seq(|plan.fields|, k requires 0 <= k < |plan.fields| => At(t, i, plan.fields[k]))
  }

  /** The record of row `i` when there are no depth columns: `(x, y, z, attrs...)`. */
  function PlainRecord(t: Table, plan: Plan, i: nat): (r: Record)
    requires Fits(t, plan) && i < |t.rows|
    ensures |r| == 3 + |plan.fields|
    ensures forall k | 0 <= k < |plan.fields| :: r[3 + k] == At(t, i, plan.fields[k])
  {
    [At(t, i, plan.x), At(t, i, plan.y), At(t, i, plan.z)] + AttrValues(t, plan, i)
  }

  /** The record of row `i` for depth column `col`:
      `(x, y, z - depth / 100, cell, attrs...)`, the depth cell in fourth place. */
  function DepthRecord(t: Table, plan: Plan, i: nat, col: string): (r: Record)
    requires Fits(t, plan) && i < |t.rows| && col in t.names && FirstDigitRun(col).Some?
    ensures |r| == 4 + |plan.fields|
    ensures r[3] == At(t, i, col)
    ensures forall k | 0 <= k < |plan.fields| :: r[4 + k] == At(t, i, plan.fields[k])
  {
    [At(t, i, plan.x), At(t, i, plan.y), Shifted(At(t, i, plan.z), FirstDigitRun(col).value), At(t, i, col)]
      + AttrValues(t, plan, i)
  }

  /** The records row `i` yields for the first `j` depth columns, in their
      order, skipping missing cells. */
  function RowDepthRecords(t: Table, plan: Plan, i: nat, j: nat): (rs: seq<Record>)
    requires Fits(t, plan) && i < |t.rows| && j <= |plan.depth|
    requires ParsedBefore(plan.depth, j)
    ensures |rs| <= j
    ensures forall m | 0 <= m < |rs| :: |rs[m]| == 4 + |plan.fields|
  {
    if j == 0 then []
    else
      var col := plan.depth[j - 1];
      RowDepthRecords(t, plan, i, j - 1)
        + (if At(t, i, col).Null? then [] else [DepthRecord(t, plan, i, col)])
  }

  function RowRecords(t: Table, plan: Plan, i: nat): seq<Record>
    requires Fits(t, plan) && i < |t.rows| && AllParse(plan.depth)
  {
    if plan.depth == [] then [PlainRecord(t, plan, i)]
    else RowDepthRecords(t, plan, i, |plan.depth|)
  }

  /** The records of each of the first `n` rows. */
  function RowsOf(t: Table, plan: Plan, n: nat): seq<seq<Record>>
    requires Fits(t, plan) && n <= |t.rows|
    requires n == 0 || AllParse(plan.depth)
  {
    seq(n, i requires 0 <= i < n => RowRecords(t, plan, i))
  }

  /** The records of the first `n` rows, row after row. */
  function Records(t: Table, plan: Plan, n: nat): seq<Record>
    requires Fits(t, plan) && n <= |t.rows|
    requires n == 0 || AllParse(plan.depth)
  {
    Flatten(RowsOf(t, plan, n))
  }

  /** The result of the whole expansion. The depth of a column is read on
      every row before its cell is looked at, so a depth column without a
      digit fails the conversion as soon as there is a row, whatever its
      cells hold; a table without rows yields no records and no failure. */
  function Expansion(t: Table, plan: Plan): (r: Result<seq<Record>>)
    requires Fits(t, plan)
    ensures r.Err? <==> |t.rows| > 0 && !AllParse(plan.depth)
    ensures r.Err? ==> r.failure == NoDigitRun
    ensures r.Ok? && plan.depth == [] ==> |r.value| == |t.rows|
    ensures r.Ok? && plan.depth != [] ==> |r.value| == NonNullCells(t, |t.rows|, plan.depth)
  {
    if |t.rows| > 0 && !AllParse(plan.depth) then Err(NoDigitRun)
    else if plan.depth == [] then
      PlainRecordsAt(t, plan, |t.rows|);
      Ok(Records(t, plan, |t.rows|))
    else if |t.rows| > 0 then
      DepthRecordsCount(t, plan, |t.rows|);
      Ok(Records(t, plan, |t.rows|))
    else Ok([])
  }

  /** The inner loop of the converter for row `i`: for each depth column in
      order, its depth read from its name, and one record appended to `data`
      when the row's cell is present; a name without a digit stops the
      conversion. */
  method ExpandRow(t: Table, plan: Plan, i: nat, data: seq<Record>) returns (res: Result<seq<Record>>)
    requires Fits(t, plan) && i < |t.rows|
    ensures !AllParse(plan.depth) ==> res == Err(NoDigitRun)
    ensures AllParse(plan.depth) ==> res == Ok(data + RowDepthRecords(t, plan, i, |plan.depth|))
  {
    var x, y, z := At(t, i, plan.x), At(t, i, plan.y), At(t, i, plan.z);
    var attributes := AttrValues(t, plan, i);
    var out := data;
    var j := 0;
    while j < |plan.depth|
      invariant 0 <= j <= |plan.depth|
      invariant ParsedBefore(plan.depth, j)
      invariant out == data + RowDepthRecords(t, plan, i, j)
    {
      var col := plan.depth[j];
      var depth := FirstDigitRun(col);
      if depth.None? {
        return Err(NoDigitRun);
      }
      var value := At(t, i, col);
      if !value.Null? {
        assert [x, y, Shifted(z, depth.value), value] + attributes == DepthRecord(t, plan, i, col);
        out := out + [[x, y, Shifted(z, depth.value), value] + attributes];
      }
      j := j + 1;
    }
    return Ok(out);
  }

  /** The loop of the converter: rows in order, and for each row either one
      record or the records of its depth columns, appended to `data`. */
  method Expand(t: Table, plan: Plan) returns (res: Result<seq<Record>>)
    requires Fits(t, plan)
    ensures res == Expansion(t, plan)
  {
    var data: seq<Record> := [];
    var i := 0;
    while i < |t.rows|
      invariant 0 <= i <= |t.rows|
      invariant i > 0 ==> AllParse(plan.depth)
      invariant data == Records(t, plan, i)
    {
      if plan.depth != [] {
        var row := ExpandRow(t, plan, i, data);
        if row.Err? {
          return row;
        }
        data := row.value;
      } else {
        var x, y, z := At(t, i, plan.x), At(t, i, plan.y), At(t, i, plan.z);
        var attributes := AttrValues(t, plan, i);
        data := data + [[x, y, z] + attributes];
        assert [[x, y, z] + attributes] == RowRecords(t, plan, i);
      }
      RecordsStep(t, plan, i);
      i := i + 1;
    }
    return Ok(data);
  }

  lemma RowsOfPrefix(t: Table, plan: Plan, n: nat, i: nat)
    requires Fits(t, plan) && i <= n <= |t.rows| && AllParse(plan.depth)
    ensures RowsOf(t, plan, n)[..i] == RowsOf(t, plan, i)
  {
  }

  lemma RecordsStep(t: Table, plan: Plan, i: nat)
    requires Fits(t, plan) && i < |t.rows| && AllParse(plan.depth)
    ensures Records(t, plan, i + 1) == Records(t, plan, i) + RowRecords(t, plan, i)
  {
    RowsOfPrefix(t, plan, i + 1, i);
  }

  lemma DepthRecordsStep(t: Table, plan: Plan, i: nat)
    requires Fits(t, plan) && i < |t.rows| && plan.depth != [] && AllParse(plan.depth)
    ensures Records(t, plan, i + 1) == Records(t, plan, i) + RowDepthRecords(t, plan, i, |plan.depth|)
  {
    RecordsStep(t, plan, i);
  }

  /** Present cells of row `i` among the first `j` columns of `cols`. */
  function NonNullBefore(t: Table, i: nat, cols: seq<string>, j: nat): nat
    requires WellFormed(t) && i < |t.rows| && j <= |cols|
    requires forall k | 0 <= k < |cols| :: cols[k] in t.names
  {
    if j == 0 then 0 else NonNullBefore(t, i, cols, j - 1) + (if At(t, i, cols[j - 1]).Null? then 0 else 1)
  }

  /** Present cells of row `i` among the columns `cols`. */
  function NonNullInRow(t: Table, i: nat, cols: seq<string>): nat
    requires WellFormed(t) && i < |t.rows|
    requires forall k | 0 <= k < |cols| :: cols[k] in t.names
  {
    NonNullBefore(t, i, cols, |cols|)
  }

  /** Present cells of the first `n` rows among the columns `cols`. */
  function NonNullCells(t: Table, n: nat, cols: seq<string>): nat
    requires WellFormed(t) && n <= |t.rows|
    requires forall k | 0 <= k < |cols| :: cols[k] in t.names
  {
    if n == 0 then 0 else NonNullCells(t, n - 1, cols) + NonNullInRow(t, n - 1, cols)
  }

  /** A row whose cells in `cols` are all missing has no present cell. */
  lemma {:induction false} NoPresentCellInRow(t: Table, i: nat, cols: seq<string>, j: nat)
    requires WellFormed(t) && i < |t.rows| && j <= |cols|
    requires forall k | 0 <= k < |cols| :: cols[k] in t.names
    requires forall k | 0 <= k < j :: At(t, i, cols[k]).Null?
    ensures NonNullBefore(t, i, cols, j) == 0
  {
    if j > 0 {
      NoPresentCellInRow(t, i, cols, j - 1);
    }
  }

  /** Rows whose cells in `cols` are all missing have no present cell. */
  lemma {:induction false} NoPresentCells(t: Table, n: nat, cols: seq<string>)
    requires WellFormed(t) && n <= |t.rows|
    requires forall k | 0 <= k < |cols| :: cols[k] in t.names
    requires forall i, k | 0 <= i < n && 0 <= k < |cols| :: At(t, i, cols[k]).Null?
    ensures NonNullCells(t, n, cols) == 0
  {
    if n > 0 {
      NoPresentCells(t, n - 1, cols);
      NoPresentCellInRow(t, n - 1, cols, |cols|);
    }
  }

  /** A row yields one record per depth column whose cell is present. */
  lemma {:induction false} RowDepthCount(t: Table, plan: Plan, i: nat, j: nat)
    requires Fits(t, plan) && i < |t.rows| && j <= |plan.depth|
    requires ParsedBefore(plan.depth, j)
    ensures |RowDepthRecords(t, plan, i, j)| == NonNullBefore(t, i, plan.depth, j)
  {
    if j > 0 {
      RowDepthCount(t, plan, i, j - 1);
    }
  }

  /** Record `m` of a row's records for the first `j` depth columns is the
      depth record of one of those columns whose cell is present. */
  lemma {:induction false} RowRecordSource(t: Table, plan: Plan, i: nat, j: nat, m: nat) returns (k: nat)
    requires Fits(t, plan) && i < |t.rows| && j <= |plan.depth|
    requires ParsedBefore(plan.depth, j)
    requires m < |RowDepthRecords(t, plan, i, j)|
    ensures k < j && !At(t, i, plan.depth[k]).Null?
    ensures RowDepthRecords(t, plan, i, j)[m] == DepthRecord(t, plan, i, plan.depth[k])
  {
    var before := RowDepthRecords(t, plan, i, j - 1);
    if m < |before| {
      k := RowRecordSource(t, plan, i, j - 1, m);
    } else {
      k := j - 1;
    }
  }

  /** The record of depth column `k` of row `i`, when its cell is present,
      comes after those of the present cells before it in the row. */
  lemma {:induction false} RowRecordAt(t: Table, plan: Plan, i: nat, j: nat, k: nat)
    requires Fits(t, plan) && i < |t.rows| && k < j <= |plan.depth|
    requires ParsedBefore(plan.depth, j)
    requires !At(t, i, plan.depth[k]).Null?
    ensures NonNullBefore(t, i, plan.depth, k) < |RowDepthRecords(t, plan, i, j)|
    ensures RowDepthRecords(t, plan, i, j)[NonNullBefore(t, i, plan.depth, k)] == DepthRecord(t, plan, i, plan.depth[k])
  {
    var col := plan.depth[j - 1];
    var before := RowDepthRecords(t, plan, i, j - 1);
    assert RowDepthRecords(t, plan, i, j)
      == before + (if At(t, i, col).Null? then [] else [DepthRecord(t, plan, i, col)]);
    if k < j - 1 {
      RowRecordAt(t, plan, i, j - 1, k);
    } else {
      RowDepthCount(t, plan, i, j - 1);
      assert NonNullBefore(t, i, plan.depth, k) == |before|;
    }
  }

  /** Without depth columns there is one record per row, in row order, made
      of the row's x, y and z followed by its carried attributes. */
  lemma {:induction false} PlainRecordsAt(t: Table, plan: Plan, n: nat)
    requires Fits(t, plan) && n <= |t.rows| && plan.depth == []
    ensures |Records(t, plan, n)| == n
    ensures forall i | 0 <= i < n ::
              Records(t, plan, n)[i] == [At(t, i, plan.x), At(t, i, plan.y), At(t, i, plan.z)] + AttrValues(t, plan, i)
  {
    if n > 0 {
      RecordsStep(t, plan, n - 1);
      PlainRecordsAt(t, plan, n - 1);
    }
  }

  /** With depth columns, the number of records is the number of present
      (row, depth column) cells. */
  lemma {:induction false} DepthRecordsCount(t: Table, plan: Plan, n: nat)
    requires Fits(t, plan) && n <= |t.rows| && plan.depth != [] && AllParse(plan.depth)
    ensures |Records(t, plan, n)| == NonNullCells(t, n, plan.depth)
  {
    if n > 0 {
      DepthRecordsStep(t, plan, n - 1);
      DepthRecordsCount(t, plan, n - 1);
      RowDepthCount(t, plan, n - 1, |plan.depth|);
    }
  }

  /** Record `m` is the depth record of a present (row, depth column) cell. */
  lemma RecordSource(t: Table, plan: Plan, n: nat, m: nat) returns (i: nat, k: nat)
    requires Fits(t, plan) && n <= |t.rows| && plan.depth != [] && AllParse(plan.depth)
    requires m < |Records(t, plan, n)|
    ensures i < n && k < |plan.depth| && !At(t, i, plan.depth[k]).Null?
    ensures Records(t, plan, n)[m] == DepthRecord(t, plan, i, plan.depth[k])
  {
    var q;
    i, q := FlattenSource(RowsOf(t, plan, n), m);
    k := RowRecordSource(t, plan, i, |plan.depth|, q);
  }

  /** The record of the present cell of row `i` and depth column `k` follows
      one record per present depth cell of the earlier rows and one per
      present cell before it in its row. */
  lemma RecordAt(t: Table, plan: Plan, n: nat, i: nat, k: nat)
    requires Fits(t, plan) && i < n <= |t.rows| && plan.depth != [] && AllParse(plan.depth)
    requires k < |plan.depth| && !At(t, i, plan.depth[k]).Null?
    ensures NonNullCells(t, i, plan.depth) + NonNullBefore(t, i, plan.depth, k) < |Records(t, plan, n)|
    ensures Records(t, plan, n)[NonNullCells(t, i, plan.depth) + NonNullBefore(t, i, plan.depth, k)]
              == DepthRecord(t, plan, i, plan.depth[k])
  {
    RowsOfPrefix(t, plan, n, i);
    RowRecordAt(t, plan, i, |plan.depth|, k);
    DepthRecordsCount(t, plan, i);
    FlattenAt(RowsOf(t, plan, n), i, NonNullBefore(t, i, plan.depth, k));
  }

  /** The present cell a given record comes from. */
  lemma PresentCellOf(t: Table, plan: Plan, r: Record) returns (i: nat, c: string)
    requires Fits(t, plan) && plan.depth != [] && AllParse(plan.depth)
    requires r in Records(t, plan, |t.rows|)
    ensures i < |t.rows| && c in plan.depth && !At(t, i, c).Null? && r == DepthRecord(t, plan, i, c)
  {
    var rs := Records(t, plan, |t.rows|);
    var m :| 0 <= m < |rs| && rs[m] == r;
    var k;
    i, k := RecordSource(t, plan, |t.rows|, m);
    c := plan.depth[k];
  }

  /** Every present cell gives its record. */
  lemma RecordOfPresentCell(t: Table, plan: Plan, i: nat, c: string)
    requires Fits(t, plan) && plan.depth != [] && AllParse(plan.depth)
    requires i < |t.rows| && c in plan.depth && !At(t, i, c).Null?
    ensures DepthRecord(t, plan, i, c) in Records(t, plan, |t.rows|)
  {
    var k := IndexOf(plan.depth, c);
    RecordAt(t, plan, |t.rows|, i, k);
  }

  /** The first four fields of a depth record: the row's x and y, its z
      lowered by the number in the column's name divided by 100, and the
      cell's value. */
  lemma DepthRecordPrefix(t: Table, plan: Plan, i: nat, c: string)
    requires Fits(t, plan) && i < |t.rows| && c in t.names && FirstDigitRun(c).Some?
    ensures var r := DepthRecord(t, plan, i, c);
      |r| >= 4 && r[..4] == [At(t, i, plan.x), At(t, i, plan.y), Shifted(At(t, i, plan.z), FirstDigitRun(c).value), At(t, i, c)]
  {
  }

  /** With depth columns, every record of all rows comes from a present
      cell and starts with that cell's x, lowered z and value. */
  lemma DepthRecordsFromCells(t: Table, plan: Plan)
    requires Fits(t, plan) && plan.depth != [] && AllParse(plan.depth)
    ensures forall r | r in Records(t, plan, |t.rows|) ::
      exists i, c | 0 <= i < |t.rows| && c in plan.depth ::
        && !At(t, i, c).Null?
        && FirstDigitRun(c).Some?
        && |r| >= 4
        && r[..4] == [At(t, i, plan.x), At(t, i, plan.y), Shifted(At(t, i, plan.z), FirstDigitRun(c).value), At(t, i, c)]
  {
    forall r | r in Records(t, plan, |t.rows|)
      ensures exists i, c | 0 <= i < |t.rows| && c in plan.depth ::
        && !At(t, i, c).Null?
        && FirstDigitRun(c).Some?
        && |r| >= 4
        && r[..4] == [At(t, i, plan.x), At(t, i, plan.y), Shifted(At(t, i, plan.z), FirstDigitRun(c).value), At(t, i, c)]
    {
      var i, c := PresentCellOf(t, plan, r);
      DepthRecordPrefix(t, plan, i, c);
    }
  }

  /** With depth columns, every present cell of every row gives its record. */
  lemma DepthRecordsCoverCells(t: Table, plan: Plan)
    requires Fits(t, plan) && plan.depth != [] && AllParse(plan.depth)
    ensures forall i, c | 0 <= i < |t.rows| && c in plan.depth && !At(t, i, c).Null? ::
      DepthRecord(t, plan, i, c) in Records(t, plan, |t.rows|)
  {
    forall i, c | 0 <= i < |t.rows| && c in plan.depth && !At(t, i, c).Null?
      ensures DepthRecord(t, plan, i, c) in Records(t, plan, |t.rows|)
    {
      RecordOfPresentCell(t, plan, i, c);
    }
  }

  /** With depth columns, every record carries a present cell in fourth
      place. */
  lemma DepthValuesPresent(t: Table, plan: Plan)
    requires Fits(t, plan) && plan.depth != [] && AllParse(plan.depth)
    ensures forall r | r in Records(t, plan, |t.rows|) :: |r| > 3 && r[3] != Null
  {
    forall r | r in Records(t, plan, |t.rows|) ensures |r| > 3 && r[3] != Null {
      var i, c := PresentCellOf(t, plan, r);
      DepthRecordPrefix(t, plan, i, c);
      assert r[3] == r[..4][3];
    }
  }
}
