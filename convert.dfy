/** The conversion step of the converter, from a loaded table and the four
    role selections to either a failure or the record schema and the point
    records handed to the PLY writer. */
module Convert {
  import opened Common
  import opened Strings
  import opened Frame
  import opened Classify
  import opened Expander
  import opened Schema

  /** What the conversion hands on: the field names and the records, or why
      it stopped. */
  datatype Outcome = Converted(schema: seq<string>, records: seq<Record>) | Failed(failure: Failure)

  /** The roles of one conversion once the depth columns are known. */
  function PlanOf(names: seq<string>, x: string, y: string, z: string, depth: seq<string>): Plan {
    Plan(x, y, z, Fields(AttributeColumns(names, x, y, z), depth), depth)
  }

  lemma PlanFits(t: Table, x: string, y: string, z: string, depth: seq<string>)
    requires WellFormed(t) && x in t.names && y in t.names && z in t.names
    requires forall c | c in depth :: c in t.names
    ensures Fits(t, PlanOf(t.names, x, y, z, depth))
  {
  }

  /** The whole conversion: the numeric gate, the depth columns, the row
      expansion, and the schema, whose field names numpy refuses to repeat. */
  function Conversion(t: Table, x: string, y: string, z: string, selector: Option<string>): (r: Outcome)
    requires WellFormed(t)
    ensures r.Converted? ==> NumericRole(t, x) && NumericRole(t, y) && NumericRole(t, z)
    ensures r.Converted? ==> Distinct(r.schema) && |r.schema| >= 3 && r.schema[0] == "x" && r.schema[1] == "y" && r.schema[2] == "z"
    ensures r == Failed(NoDigitRun) ==> |t.rows| > 0
  {
    match RoleGate(t, x, y, z)
    case Some(f) => Failed(f)
    case None =>
      match DepthColumns(t.names, selector)
      case Err(f) => Failed(f)
      case Ok(depth) =>
        var plan := PlanOf(t.names, x, y, z, depth);
        PlanFits(t, x, y, z, depth);
        match Expansion(t, plan)
        case Err(f) => Failed(f)
        case Ok(records) =>
          var schema := SchemaFor(plan.fields, depth != []);
          if Distinct(schema) then Converted(schema, records) else Failed(DuplicateField)
  }

  /** The body of the converter's `try` block, step by step. */
  method Convert(t: Table, x: string, y: string, z: string, selector: Option<string>) returns (out: Outcome)
    requires WellFormed(t)
    ensures out == Conversion(t, x, y, z, selector)
  {
    var gate := RoleGate(t, x, y, z);
    if gate.Some? {
      return Failed(gate.value);
    }
    var attributeColumns := AttributeColumns(t.names, x, y, z);
    var depthColumns := DepthColumns(t.names, selector);
    if depthColumns.Err? {
      return Failed(depthColumns.failure);
    }
    var depth := depthColumns.value;
    var plan := Plan(x, y, z, Fields(attributeColumns, depth), depth);
    PlanFits(t, x, y, z, depth);
    var data := Expand(t, plan);
    if data.Err? {
      return Failed(data.failure);
    }
    var dtype := BuildSchema(attributeColumns, depth);
    if !Distinct(dtype) {
      return Failed(DuplicateField);
    }
    return Converted(dtype, data.value);
  }

  /** The conversion succeeds exactly when the three roles pass the gate,
      the selector yields depth columns, every depth column's name holds a
      digit (or there is no row to expand), and the schema names no field
      twice. */
  lemma ConversionSucceeds(t: Table, x: string, y: string, z: string, selector: Option<string>)
    requires WellFormed(t)
    ensures Conversion(t, x, y, z, selector).Converted? <==>
      && NumericRole(t, x) && NumericRole(t, y) && NumericRole(t, z)
      && DepthColumns(t.names, selector).Ok?
      && var depth := DepthColumns(t.names, selector).value;
         && (|t.rows| == 0 || AllParse(depth))
         && Distinct(SchemaFor(Fields(AttributeColumns(t.names, x, y, z), depth), depth != []))
  {
    if RoleGate(t, x, y, z).None? && DepthColumns(t.names, selector).Ok? {
      PlanFits(t, x, y, z, DepthColumns(t.names, selector).value);
    }
  }

  /** A successful conversion passed the gate, chose its depth columns, and
      carries the expansion of all rows under the schema built from the
      carried attributes. */
  lemma ConvertedParts(t: Table, x: string, y: string, z: string, selector: Option<string>)
    requires WellFormed(t)
    requires Conversion(t, x, y, z, selector).Converted?
    ensures RoleGate(t, x, y, z).None? && DepthColumns(t.names, selector).Ok?
    ensures var depth := DepthColumns(t.names, selector).value;
      var plan := PlanOf(t.names, x, y, z, depth);
      var out := Conversion(t, x, y, z, selector);
      && Fits(t, plan)
      && (|t.rows| > 0 ==> AllParse(depth))
      && out.records == Records(t, plan, |t.rows|)
      && out.schema == SchemaFor(plan.fields, depth != [])
  {
    var depth := DepthColumns(t.names, selector).value;
    PlanFits(t, x, y, z, depth);
  }

  /** The numeric gate decides before any row is looked at: when a role is
      missing or not numeric, the outcome is that failure whatever the rows
      hold. When all three roles are columns, the failure is the numeric-data
      error, and so it is for an x column of non-numeric kind even when y or z
      is not a column at all; otherwise the first missing role, in x, y, z
      order, is the one named. */
  lemma GateComesFirst(t: Table, rows: seq<seq<Cell>>, x: string, y: string, z: string, selector: Option<string>)
    requires WellFormed(t) && WellFormed(t.(rows := rows))
    requires !(NumericRole(t, x) && NumericRole(t, y) && NumericRole(t, z))
    ensures Conversion(t, x, y, z, selector).Failed?
    ensures Conversion(t.(rows := rows), x, y, z, selector) == Conversion(t, x, y, z, selector)
    ensures x in t.names && !NumericKind(Kind(t, x)) ==> Conversion(t, x, y, z, selector) == Failed(NotNumeric)
    ensures x in t.names && y in t.names && z in t.names ==> Conversion(t, x, y, z, selector) == Failed(NotNumeric)
    ensures x !in t.names ==> Conversion(t, x, y, z, selector) == Failed(MissingColumn(x))
    ensures NumericRole(t, x) && y !in t.names ==> Conversion(t, x, y, z, selector) == Failed(MissingColumn(y))
    ensures NumericRole(t, x) && NumericRole(t, y) && z !in t.names ==> Conversion(t, x, y, z, selector) == Failed(MissingColumn(z))
  {
    var t' := t.(rows := rows);
    assert t'.names == t.names && t'.kinds == t.kinds;
    assert forall n | n in t.names :: Kind(t', n) == Kind(t, n);
  }

  /** A depth selector that does not start with a letter fails the
      conversion once the gate has passed, whatever the rows hold. */
  lemma SelectorWithoutLetterFails(t: Table, x: string, y: string, z: string, s: string)
    requires WellFormed(t)
    requires NumericRole(t, x) && NumericRole(t, y) && NumericRole(t, z)
    requires s == [] || !IsLetter(s[0])
    ensures Conversion(t, x, y, z, Some(s)) == Failed(NoLetterPrefix)
  {
    DepthColumnsSpec(t.names, Some(s));
  }

  /** A depth column whose name holds no digit fails the conversion as soon as
      the table has a row, even when every cell of that column is missing. */
  lemma DigitlessDepthColumnFails(t: Table, x: string, y: string, z: string, selector: Option<string>, c: string)
    requires WellFormed(t) && |t.rows| > 0
    requires NumericRole(t, x) && NumericRole(t, y) && NumericRole(t, z)
    requires DepthColumns(t.names, selector).Ok? && c in DepthColumns(t.names, selector).value
    requires NoDigits(c)
    ensures Conversion(t, x, y, z, selector) == Failed(NoDigitRun)
  {
    FirstDigitRunNone(c);
  }

  /** Without depth columns, a successful conversion gives one record per row,
      in row order, made of the row's x, y and z followed by its attribute
      values in attribute order, under the schema `x, y, z, attributes...`. */
  lemma PlainConversion(t: Table, x: string, y: string, z: string, selector: Option<string>)
    requires WellFormed(t)
    requires DepthColumns(t.names, selector) == Ok([])
    requires Conversion(t, x, y, z, selector).Converted?
    ensures var out := Conversion(t, x, y, z, selector);
      var fields := Fields(AttributeColumns(t.names, x, y, z), []);
      && out.schema == ["x", "y", "z"] + fields
      && |out.records| == |t.rows|
      && forall i | 0 <= i < |t.rows| ::
           && |out.records[i]| == 3 + |fields|
           && out.records[i][0] == At(t, i, x) && out.records[i][1] == At(t, i, y) && out.records[i][2] == At(t, i, z)
           && forall k | 0 <= k < |fields| :: out.records[i][3 + k] == At(t, i, fields[k])
  {
    var plan := PlanOf(t.names, x, y, z, []);
    ConvertedParts(t, x, y, z, selector);
    PlainRecordsAt(t, plan, |t.rows|);
  }

  /** With depth columns, a successful conversion gives exactly one record per
      present (row, depth column) cell, so a table whose depth cells are all
      missing gives no record. */
  lemma DepthConversionCount(t: Table, x: string, y: string, z: string, selector: Option<string>)
    requires WellFormed(t)
    requires DepthColumns(t.names, selector).Ok? && DepthColumns(t.names, selector).value != []
    requires Conversion(t, x, y, z, selector).Converted?
    ensures var depth := DepthColumns(t.names, selector).value;
      |Conversion(t, x, y, z, selector).records| == NonNullCells(t, |t.rows|, depth)
  {
    var depth := DepthColumns(t.names, selector).value;
    var plan := PlanOf(t.names, x, y, z, depth);
    ConvertedParts(t, x, y, z, selector);
    if |t.rows| > 0 {
      DepthRecordsCount(t, plan, |t.rows|);
    }
  }

  /** With depth columns, a table whose depth cells are all missing converts
      to no record at all. */
  lemma AllDepthCellsMissing(t: Table, x: string, y: string, z: string, selector: Option<string>)
    requires WellFormed(t)
    requires DepthColumns(t.names, selector).Ok? && DepthColumns(t.names, selector).value != []
    requires Conversion(t, x, y, z, selector).Converted?
    requires forall i, c | 0 <= i < |t.rows| && c in DepthColumns(t.names, selector).value :: At(t, i, c).Null?
    ensures Conversion(t, x, y, z, selector).records == []
  {
    var depth := DepthColumns(t.names, selector).value;
    DepthConversionCount(t, x, y, z, selector);
    NoPresentCells(t, |t.rows|, depth);
  }

  /** With depth columns, every record of a successful conversion comes from
      a row `i` and a depth column `c` whose cell is present, and holds that
      row's x and y, its z lowered by the number in `c`'s name divided by 100,
      and the cell's value in fourth place. */
  lemma DepthConversionSound(t: Table, x: string, y: string, z: string, selector: Option<string>)
    requires WellFormed(t)
    requires DepthColumns(t.names, selector).Ok? && DepthColumns(t.names, selector).value != []
    requires Conversion(t, x, y, z, selector).Converted?
    ensures var depth := DepthColumns(t.names, selector).value;
      forall r | r in Conversion(t, x, y, z, selector).records ::
        exists i, c | 0 <= i < |t.rows| && c in depth ::
          && !At(t, i, c).Null?
          && FirstDigitRun(c).Some?
          && |r| >= 4 && r[..4] == [At(t, i, x), At(t, i, y), Shifted(At(t, i, z), FirstDigitRun(c).value), At(t, i, c)]
  {
    var depth := DepthColumns(t.names, selector).value;
    var plan := PlanOf(t.names, x, y, z, depth);
    ConvertedParts(t, x, y, z, selector);
    if |t.rows| > 0 {
      DepthRecordsFromCells(t, plan);
    }
  }

  /** With depth columns, every present (row, depth column) cell gives its
      record in a successful conversion. */
  lemma DepthConversionComplete(t: Table, x: string, y: string, z: string, selector: Option<string>)
    requires WellFormed(t)
    requires DepthColumns(t.names, selector).Ok? && DepthColumns(t.names, selector).value != []
    requires Conversion(t, x, y, z, selector).Converted?
    ensures var depth := DepthColumns(t.names, selector).value;
      var plan := PlanOf(t.names, x, y, z, depth);
      && Fits(t, plan)
      && (|t.rows| > 0 ==> AllParse(depth))
      && forall i, c | 0 <= i < |t.rows| && c in depth && !At(t, i, c).Null? ::
           DepthRecord(t, plan, i, c) in Conversion(t, x, y, z, selector).records
  {
    var depth := DepthColumns(t.names, selector).value;
    var plan := PlanOf(t.names, x, y, z, depth);
    ConvertedParts(t, x, y, z, selector);
    if |t.rows| > 0 {
      DepthRecordsCoverCells(t, plan);
    }
  }

  /** Every record of a successful conversion has exactly as many fields as the
      schema, in both modes. */
  lemma RecordsMatchSchema(t: Table, x: string, y: string, z: string, selector: Option<string>)
    requires WellFormed(t)
    requires Conversion(t, x, y, z, selector).Converted?
    ensures var out := Conversion(t, x, y, z, selector);
      forall r | r in out.records :: |r| == |out.schema|
  {
    var depth := DepthColumns(t.names, selector).value;
    var plan := PlanOf(t.names, x, y, z, depth);
    ConvertedParts(t, x, y, z, selector);
    var out := Conversion(t, x, y, z, selector);
    if depth == [] {
      PlainRecordsAt(t, plan, |t.rows|);
      forall r | r in out.records ensures |r| == |out.schema| {
        var i :| 0 <= i < |out.records| && out.records[i] == r;
      }
    } else if |t.rows| > 0 {
      forall r | r in out.records ensures |r| == |out.schema| {
        var i, c := PresentCellOf(t, plan, r);
      }
    }
  }

  /** With depth columns and at least one carried attribute, the schema names
      its fourth field after the first attribute, never `value`, and puts
      `value` last. */
  lemma DepthSchemaValueLast(t: Table, x: string, y: string, z: string, selector: Option<string>)
    requires WellFormed(t)
    requires DepthColumns(t.names, selector).Ok? && DepthColumns(t.names, selector).value != []
    requires Conversion(t, x, y, z, selector).Converted?
    requires Fields(AttributeColumns(t.names, x, y, z), DepthColumns(t.names, selector).value) != []
    ensures var out := Conversion(t, x, y, z, selector);
      var fields := Fields(AttributeColumns(t.names, x, y, z), DepthColumns(t.names, selector).value);
      && out.schema[3] == fields[0] != "value"
      && out.schema[|out.schema| - 1] == "value"
  {
    var depth := DepthColumns(t.names, selector).value;
    var plan := PlanOf(t.names, x, y, z, depth);
    ConvertedParts(t, x, y, z, selector);
    SchemaDistinct(plan.fields, true);
    assert plan.fields[0] in plan.fields;
  }

  /** With depth columns, every record of a successful conversion carries a
      present depth cell in fourth place, where the schema, when there is a
      carried attribute, expects that attribute. */
  lemma DepthRecordValueFourth(t: Table, x: string, y: string, z: string, selector: Option<string>)
    requires WellFormed(t)
    requires DepthColumns(t.names, selector).Ok? && DepthColumns(t.names, selector).value != []
    requires Conversion(t, x, y, z, selector).Converted?
    ensures forall r | r in Conversion(t, x, y, z, selector).records :: |r| > 3 && r[3] != Null
  {
    var depth := DepthColumns(t.names, selector).value;
    var plan := PlanOf(t.names, x, y, z, depth);
    ConvertedParts(t, x, y, z, selector);
    if |t.rows| > 0 {
      DepthValuesPresent(t, plan);
    }
  }
}
