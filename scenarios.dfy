/** A worked conversion of a small table with a depth group. */
module Scenarios {
  import opened Common
  import opened Strings
  import opened Frame
  import opened Classify
  import opened Expander
  import opened Schema
  import opened Convert

  const Names: seq<string> := ["x", "y", "z", "depth10", "depth20"]

  /** One row whose `depth20` cell is missing. */
  const Example: Table := Table(Names, "fffff", [[Num(1.0), Num(2.0), Num(3.0), Num(5.0), Null]])

  lemma ExamplePrefix()
    ensures LetterPrefix("depth10") == Some("depth")
  {
    assert LeadingLetters("10") == [];
    assert LeadingLetters("h10") == "h" by { assert "h10"[1..] == "10"; }
    assert LeadingLetters("th10") == "th" by { assert "th10"[1..] == "h10"; }
    assert LeadingLetters("pth10") == "pth" by { assert "pth10"[1..] == "th10"; }
    assert LeadingLetters("epth10") == "epth" by { assert "epth10"[1..] == "pth10"; }
    assert LeadingLetters("depth10") == "depth" by { assert "depth10"[1..] == "epth10"; }
  }

  lemma ExampleKeepDepth()
    ensures Keep(Names, StartsWith("depth")) == ["depth10", "depth20"]
  {
    var p := StartsWith("depth");
    assert !p("x") && !p("y") && !p("z") && p("depth10") && p("depth20");
    assert Names[0] == "x" && Names[1] == "y" && Names[2] == "z" && Names[3] == "depth10" && Names[4] == "depth20";
    assert Names[..0] == [] && Names[..5] == Names;
    assert Keep(Names[..1], p) == [] by { KeepSnoc(Names, p, 0); }
    assert Keep(Names[..2], p) == [] by { KeepSnoc(Names, p, 1); }
    assert Keep(Names[..3], p) == [] by { KeepSnoc(Names, p, 2); }
    assert Keep(Names[..4], p) == ["depth10"] by { KeepSnoc(Names, p, 3); }
    KeepSnoc(Names, p, 4);
  }

  lemma ExampleDepthColumns()
    ensures DepthColumns(Names, Some("depth10")) == Ok(["depth10", "depth20"])
  {
    ExamplePrefix();
    ExampleKeepDepth();
  }

  lemma ExampleNotRole()
    ensures var p := NotRole("x", "y", "z");
      !p("x") && !p("y") && !p("z") && p("depth10") && p("depth20")
  {
    assert Lower("x") == "x" && Lower("y") == "y" && Lower("z") == "z";
    assert |Lower("depth10")| == 7 && |Lower("depth20")| == 7;
  }

  lemma ExampleAttributeColumns()
    ensures AttributeColumns(Names, "x", "y", "z") == ["depth10", "depth20"]
  {
    var p := NotRole("x", "y", "z");
    assert !p("x") && !p("y") && !p("z") && p("depth10") && p("depth20") by { ExampleNotRole(); }
    assert Names[0] == "x" && Names[1] == "y" && Names[2] == "z" && Names[3] == "depth10" && Names[4] == "depth20";
    assert Names[..0] == [] && Names[..5] == Names;
    assert Keep(Names[..1], p) == [] by { KeepSnoc(Names, p, 0); }
    assert Keep(Names[..2], p) == [] by { KeepSnoc(Names, p, 1); }
    assert Keep(Names[..3], p) == [] by { KeepSnoc(Names, p, 2); }
    assert Keep(Names[..4], p) == ["depth10"] by { KeepSnoc(Names, p, 3); }
    KeepSnoc(Names, p, 4);
  }

  lemma ExampleFields()
    ensures Fields(["depth10", "depth20"], ["depth10", "depth20"]) == []
  {
    var s := ["depth10", "depth20"];
    assert s[..0] == [] && s[..2] == s;
    KeepSnoc(s, NotIn(s), 0);
    assert Keep(s[..1], NotIn(s)) == [];
    KeepSnoc(s, NotIn(s), 1);
  }

  lemma ExampleIndices()
    ensures IndexOf(Names, "x") == 0 && IndexOf(Names, "y") == 1 && IndexOf(Names, "z") == 2
    ensures IndexOf(Names, "depth10") == 3 && IndexOf(Names, "depth20") == 4
  {
    var n := Names;
    assert n[1..] == ["y", "z", "depth10", "depth20"];
    assert n[1..][1..] == ["z", "depth10", "depth20"];
    assert n[1..][1..][1..] == ["depth10", "depth20"];
    assert n[1..][1..][1..][1..] == ["depth20"];
  }

  lemma ExampleWellFormed()
    ensures WellFormed(Example)
  {
    assert Names[0] != Names[1] && Names[0] != Names[2] && Names[0] != Names[3] && Names[0] != Names[4];
    assert Names[1] != Names[2] && Names[1] != Names[3] && Names[1] != Names[4];
    assert Names[2] != Names[3] && Names[2] != Names[4] && Names[3] != Names[4];
  }

  lemma ExampleCells()
    ensures WellFormed(Example)
    ensures At(Example, 0, "x") == Num(1.0) && At(Example, 0, "y") == Num(2.0)
    ensures At(Example, 0, "z") == Num(3.0)
    ensures At(Example, 0, "depth10") == Num(5.0) && At(Example, 0, "depth20") == Null
    ensures Kind(Example, "x") == 'f' && Kind(Example, "y") == 'f' && Kind(Example, "z") == 'f'
  {
    ExampleWellFormed();
    ExampleIndices();
  }

  lemma ExampleDepths()
    ensures FirstDigitRun("depth10") == Some(10) && FirstDigitRun("depth20") == Some(20)
  {
    assert NoDigits("depth");
    assert Decimal(10) == "10" && Decimal(20) == "20";
    DepthOfNumberedName("depth", 10, "");
    DepthOfNumberedName("depth", 20, "");
    assert "depth" + "10" + "" == "depth10" && "depth" + "20" + "" == "depth20";
  }

  const ExamplePlan: Plan := Plan("x", "y", "z", [], ["depth10", "depth20"])

  const ExampleRecord: Record := [Num(1.0), Num(2.0), Num(2.9), Num(5.0)]

  lemma ExamplePlanOf()
    ensures PlanOf(Names, "x", "y", "z", ["depth10", "depth20"]) == ExamplePlan
  {
    ExampleAttributeColumns();
    ExampleFields();
  }

  lemma ExampleFits()
    ensures WellFormed(Example) && Fits(Example, ExamplePlan)
  {
    ExampleWellFormed();
    assert "x" in Names && "y" in Names && "z" in Names && "depth10" in Names && "depth20" in Names;
  }

  lemma ExampleShift()
    ensures Shifted(Num(3.0), 10) == Num(2.9)
  {
  }

  lemma ExampleRecordOf()
    ensures WellFormed(Example) && Fits(Example, ExamplePlan)
    ensures FirstDigitRun("depth10").Some?
    ensures DepthRecord(Example, ExamplePlan, 0, "depth10") == ExampleRecord
  {
    ExampleFits();
    ExampleDepths();
    var t, plan := Example, ExamplePlan;
    var x, y, z, v := At(t, 0, "x"), At(t, 0, "y"), At(t, 0, "z"), At(t, 0, "depth10");
    assert DepthRecord(t, plan, 0, "depth10") == [x, y, Shifted(z, 10), v] + AttrValues(t, plan, 0);
    assert x == Num(1.0) && y == Num(2.0) && z == Num(3.0) && v == Num(5.0) by { ExampleCells(); }
    assert Shifted(z, 10) == Num(2.9) by { ExampleShift(); }
    assert AttrValues(t, plan, 0) == [];
  }

  lemma ExampleParse()
    ensures AllParse(ExamplePlan.depth)
  {
    ExampleDepths();
  }

  lemma ExampleFirstColumn()
    ensures WellFormed(Example) && Fits(Example, ExamplePlan) && AllParse(ExamplePlan.depth)
    ensures RowDepthRecords(Example, ExamplePlan, 0, 1) == [ExampleRecord]
  {
    ExampleRecordOf();
    ExampleParse();
    assert ExamplePlan.depth[0] == "depth10";
  }

  lemma ExampleSecondColumn()
    ensures WellFormed(Example) && Fits(Example, ExamplePlan)
    ensures At(Example, 0, "depth20") == Null
  {
    ExampleFits();
    ExampleCells();
  }

  lemma ExampleRowRecords()
    ensures WellFormed(Example) && Fits(Example, ExamplePlan) && AllParse(ExamplePlan.depth)
    ensures RowRecords(Example, ExamplePlan, 0) == [ExampleRecord]
  {
    ExampleFirstColumn();
    ExampleSecondColumn();
    assert ExamplePlan.depth[1] == "depth20";
  }

  lemma ExampleExpansion()
    ensures WellFormed(Example) && Fits(Example, ExamplePlan)
    ensures Expansion(Example, ExamplePlan) == Ok([ExampleRecord])
  {
    var t, plan := Example, ExamplePlan;
    ExampleRowRecords();
    assert Records(t, plan, 0) == [];
    RecordsStep(t, plan, 0);
    assert Records(t, plan, 1) == [ExampleRecord];
    assert |t.rows| == 1;
  }

  lemma ExampleGate()
    ensures WellFormed(Example) && RoleGate(Example, "x", "y", "z") == None
  {
    ExampleCells();
    assert "x" in Names && "y" in Names && "z" in Names;
  }

  lemma ExampleSchema()
    ensures SchemaFor([], true) == ["x", "y", "z", "value"]
    ensures Distinct(["x", "y", "z", "value"])
  {
    SchemaDistinct([], true);
  }

  /** Columns `x, y, z, depth10, depth20`, the depth selector `depth10`, and
      one row whose `depth20` cell is missing: the group prefix is `depth`,
      both depth columns are chosen, and the row yields a single record whose
      z is lowered by 10 / 100 and whose fourth field is the `depth10` value,
      under the schema `x, y, z, value`. */
  lemma DepthGroupExample()
    ensures WellFormed(Example)
    ensures Conversion(Example, "x", "y", "z", Some("depth10"))
              == Converted(["x", "y", "z", "value"], [[Num(1.0), Num(2.0), Num(2.9), Num(5.0)]])
  {
    ExampleGate();
    ExampleDepthColumns();
    ExamplePlanOf();
    ExampleExpansion();
    ExampleSchema();
  }

  const PlainNames: seq<string> := ["x", "y", "z", "temp"]

  /** Three rows without a depth selector; the last `temp` cell is missing. */
  const Plain: Table := Table(PlainNames, "ffff", [
    [Num(1.0), Num(2.0), Num(3.0), Num(20.0)],
    [Num(4.0), Num(5.0), Num(6.0), Num(21.0)],
    [Num(7.0), Num(8.0), Num(9.0), Null]])

  const PlainRecords: seq<Record> := [
    [Num(1.0), Num(2.0), Num(3.0), Num(20.0)],
    [Num(4.0), Num(5.0), Num(6.0), Num(21.0)],
    [Num(7.0), Num(8.0), Num(9.0), Null]]

  lemma PlainIndices()
    ensures IndexOf(PlainNames, "x") == 0 && IndexOf(PlainNames, "y") == 1
    ensures IndexOf(PlainNames, "z") == 2 && IndexOf(PlainNames, "temp") == 3
  {
    var n := PlainNames;
    assert n[1..] == ["y", "z", "temp"];
    assert n[1..][1..] == ["z", "temp"];
    assert n[1..][1..][1..] == ["temp"];
  }

  lemma PlainWellFormed()
    ensures WellFormed(Plain)
  {
    var n := PlainNames;
    assert n[0] != n[1] && n[0] != n[2] && n[0] != n[3];
    assert n[1] != n[2] && n[1] != n[3] && n[2] != n[3];
  }

  lemma PlainValues()
    ensures WellFormed(Plain)
    ensures Kind(Plain, "x") == 'f' && Kind(Plain, "y") == 'f' && Kind(Plain, "z") == 'f'
    ensures At(Plain, 0, "x") == Num(1.0) && At(Plain, 0, "y") == Num(2.0)
    ensures At(Plain, 0, "z") == Num(3.0) && At(Plain, 0, "temp") == Num(20.0)
    ensures At(Plain, 1, "x") == Num(4.0) && At(Plain, 1, "y") == Num(5.0)
    ensures At(Plain, 1, "z") == Num(6.0) && At(Plain, 1, "temp") == Num(21.0)
    ensures At(Plain, 2, "x") == Num(7.0) && At(Plain, 2, "y") == Num(8.0)
    ensures At(Plain, 2, "z") == Num(9.0) && At(Plain, 2, "temp") == Null
  {
    PlainWellFormed();
    PlainIndices();
  }

  lemma PlainAttributeColumns()
    ensures AttributeColumns(PlainNames, "x", "y", "z") == ["temp"]
  {
    var p := NotRole("x", "y", "z");
    assert !p("x") && !p("y") && !p("z") by { ExampleNotRole(); }
    assert p("temp") by { assert |Lower("temp")| == 4; }
    var n := PlainNames;
    assert n[0] == "x" && n[1] == "y" && n[2] == "z" && n[3] == "temp";
    assert n[..0] == [] && n[..4] == n;
    assert Keep(n[..1], p) == [] by { KeepSnoc(n, p, 0); }
    assert Keep(n[..2], p) == [] by { KeepSnoc(n, p, 1); }
    assert Keep(n[..3], p) == [] by { KeepSnoc(n, p, 2); }
    KeepSnoc(n, p, 3);
  }

  lemma PlainFields()
    ensures Fields(["temp"], []) == ["temp"]
  {
    var s := ["temp"];
    assert s[..0] == [] && s[..1] == s;
    KeepSnoc(s, NotIn([]), 0);
  }

  /** Without a depth selector the table passes every check of the
      conversion, so it converts. */
  lemma PlainGate()
    ensures WellFormed(Plain) && RoleGate(Plain, "x", "y", "z") == None
  {
    PlainWellFormed();
    PlainIndices();
    assert "x" in PlainNames && "y" in PlainNames && "z" in PlainNames;
  }

  lemma PlainConverts()
    ensures WellFormed(Plain)
    ensures Conversion(Plain, "x", "y", "z", None).Converted?
  {
    PlainGate();
    PlainAttributeColumns();
    PlainFields();
    SchemaDistinct(["temp"], false);
    assert SchemaFor(["temp"], false) == ["x", "y", "z", "temp"];
    ConversionSucceeds(Plain, "x", "y", "z", None);
  }

  const PlainPlan: Plan := Plan("x", "y", "z", ["temp"], [])

  lemma PlainPlanOf()
    ensures PlanOf(PlainNames, "x", "y", "z", []) == PlainPlan
  {
    PlainAttributeColumns();
    PlainFields();
  }

  lemma PlainFits()
    ensures WellFormed(Plain) && Fits(Plain, PlainPlan)
  {
    PlainWellFormed();
    assert "x" in PlainNames && "y" in PlainNames && "z" in PlainNames && "temp" in PlainNames;
  }

  lemma PlainRowRecords(i: nat)
    requires i < 3
    ensures WellFormed(Plain) && Fits(Plain, PlainPlan) && AllParse(PlainPlan.depth)
    ensures RowRecords(Plain, PlainPlan, i) == [PlainRecords[i]]
  {
    PlainFits();
    PlainIndices();
    var t, plan := Plain, PlainPlan;
    assert AttrValues(t, plan, i) == [At(t, i, "temp")];
    assert RowRecords(t, plan, i) == [PlainRecord(t, plan, i)];
    var r := [At(t, i, "x"), At(t, i, "y"), At(t, i, "z"), At(t, i, "temp")];
    assert PlainRecord(t, plan, i) == r;
    assert r == t.rows[i];
    assert PlainRecords == t.rows;
  }

  lemma PlainExpansion()
    ensures WellFormed(Plain) && Fits(Plain, PlainPlan)
    ensures Expansion(Plain, PlainPlan) == Ok(PlainRecords)
  {
    var t, plan := Plain, PlainPlan;
    PlainRowRecords(0);
    PlainRowRecords(1);
    PlainRowRecords(2);
    assert Records(t, plan, 0) == [];
    RecordsStep(t, plan, 0);
    RecordsStep(t, plan, 1);
    RecordsStep(t, plan, 2);
    assert Records(t, plan, 3) == [PlainRecords[0], PlainRecords[1], PlainRecords[2]];
    assert |t.rows| == 3;
  }

  /** Columns `x, y, z, temp` and no depth selector: three rows give three
      records, in row order, each the row's x, y, z and `temp` cell, a
      missing `temp` included, under the schema `x, y, z, temp`. */
  lemma PlainExample()
    ensures WellFormed(Plain)
    ensures Conversion(Plain, "x", "y", "z", None) == Converted(["x", "y", "z", "temp"], PlainRecords)
  {
    PlainGate();
    PlainPlanOf();
    PlainExpansion();
    var schema := ["x", "y", "z", "temp"];
    assert SchemaFor(["temp"], false) == schema;
    assert Distinct(schema) by { SchemaDistinct(["temp"], false); }
    assert DepthColumns(PlainNames, None) == Ok([]);
  }
}
