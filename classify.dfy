/** The first steps of the conversion: the numeric gate on the x, y and z
    columns and the split of the remaining columns into attribute columns and
    depth columns. */
module Classify {
  import opened Common
  import opened Strings
  import opened Frame

  /** `name` is a column of the table and its kind is integer or float. */
  predicate NumericRole(t: Table, name: string)
    requires WellFormed(t)
  {
    name in t.names && NumericKind(Kind(t, name))
  }

  /** `df[name].dtype.kind in 'if'` for one role: a name that is not a column
      raises, a non-numeric kind fails the gate. */
  function CheckRole(t: Table, name: string): (r: Option<Failure>)
    requires WellFormed(t)
    ensures r.None? <==> NumericRole(t, name)
    ensures name !in t.names ==> r == Some(MissingColumn(name))
    ensures name in t.names && r.Some? ==> r == Some(NotNumeric)
  {
    if name !in t.names then Some(MissingColumn(name))
    else if !NumericKind(Kind(t, name)) then Some(NotNumeric)
    else None
  }

  /** The gate on the three roles, evaluated left to right and stopping at the
      first role that is missing or not numeric, as Python's `or` does. */
  function RoleGate(t: Table, x: string, y: string, z: string): (r: Option<Failure>)
    requires WellFormed(t)
    ensures r.None? <==> NumericRole(t, x) && NumericRole(t, y) && NumericRole(t, z)
    ensures x !in t.names ==> r == Some(MissingColumn(x))
    ensures x in t.names && !NumericKind(Kind(t, x)) ==> r == Some(NotNumeric)
    ensures NumericRole(t, x) && y in t.names && !NumericKind(Kind(t, y)) ==> r == Some(NotNumeric)
    ensures x in t.names && y in t.names && z in t.names && r.Some? ==> r == Some(NotNumeric)
    ensures NumericRole(t, x) && y !in t.names ==> r == Some(MissingColumn(y))
    ensures NumericRole(t, x) && NumericRole(t, y) && z !in t.names ==> r == Some(MissingColumn(z))
    ensures r.Some? ==> r.value == NotNumeric || r.value in {MissingColumn(x), MissingColumn(y), MissingColumn(z)}
  {
    match CheckRole(t, x)
    case Some(f) => Some(f)
    case None =>
      match CheckRole(t, y)
      case Some(f) => Some(f)
      case None => CheckRole(t, z)
  }

  /** A column is an attribute unless its lower-cased name equals the
      lower-cased name of one of the three roles. */
  function NotRole(x: string, y: string, z: string): string -> bool {
    c => Lower(c) != Lower(x) && Lower(c) != Lower(y) && Lower(c) != Lower(z)
  }

  function AttributeColumns(names: seq<string>, x: string, y: string, z: string): (a: seq<string>)
    ensures forall c | c in a :: c in names && Lower(c) != Lower(x) && Lower(c) != Lower(y) && Lower(c) != Lower(z)
  {
    KeepSpec(names, NotRole(x, y, z));
    Keep(names, NotRole(x, y, z))
  }

  /** The attribute columns are exactly the table's columns whose name differs
      from every role name once both are lower-cased, listed once each and in
      table order. */
  lemma AttributeColumnsSpec(names: seq<string>, x: string, y: string, z: string)
    requires Distinct(names)
    ensures var a := AttributeColumns(names, x, y, z);
      && (forall c | c in a :: c in names && Lower(c) != Lower(x) && Lower(c) != Lower(y) && Lower(c) != Lower(z))
      && (forall c | c in names && Lower(c) != Lower(x) && Lower(c) != Lower(y) && Lower(c) != Lower(z) :: c in a)
      && Distinct(a)
      && (forall i, j | 0 <= i < j < |a| :: IndexOf(names, a[i]) < IndexOf(names, a[j]))
  {
    KeepSpec(names, NotRole(x, y, z));
    KeepKeepsOrder(names, NotRole(x, y, z));
  }

  /** Case-sensitive `str.startswith`. */
  function StartsWith(p: string): string -> bool {
    c => p <= c
  }

  /** The depth columns chosen by the depth selector: none without a selector;
      otherwise every column that starts with the selector's leading letters.
      The selector's own name is not special, so the dropdown's `'None'`
      entry selects the columns starting with `None`. */
  function DepthColumns(names: seq<string>, selector: Option<string>): (r: Result<seq<string>>)
    ensures r.Ok? ==> forall c | c in r.value :: c in names
    ensures r.Err? ==> r.failure == NoLetterPrefix
  {
    match selector
    case None => Ok([])
    case Some(s) =>
      match LetterPrefix(s)
      case None => Err(NoLetterPrefix)
      case Some(p) => Ok(Keep(names, StartsWith(p)))
  }

  /** Without a selector there are no depth columns; a selector fails exactly
      when it does not start with a letter; otherwise the depth columns are the
      table's columns, in table order, that start with the selector's maximal
      leading run of letters, compared case-sensitively (role columns
      included). */
  lemma DepthColumnsSpec(names: seq<string>, selector: Option<string>)
    requires Distinct(names)
    ensures selector.None? ==> DepthColumns(names, selector) == Ok([])
    ensures selector.Some? ==>
      (DepthColumns(names, selector).Err? <==> selector.value == [] || !IsLetter(selector.value[0]))
    ensures selector.Some? && DepthColumns(names, selector).Ok? ==>
      var s, d := selector.value, DepthColumns(names, selector).value;
      var p := LeadingLetters(s);
      && p != [] && p <= s && (|p| == |s| || !IsLetter(s[|p|]))
      && (forall c | c in d :: c in names && p <= c)
      && (forall c | c in names && p <= c :: c in d)
      && Distinct(d)
      && (forall i, j | 0 <= i < j < |d| :: IndexOf(names, d[i]) < IndexOf(names, d[j]))
  {
    if selector.Some? {
      LetterPrefixSpec(selector.value);
      if LetterPrefix(selector.value).Some? {
        KeepSpec(names, StartsWith(LetterPrefix(selector.value).value));
        KeepKeepsOrder(names, StartsWith(LetterPrefix(selector.value).value));
      }
    }
  }

  /** The dropdown's `'None'` entry is a string, so it selects every column
      whose name starts with `None`. */
  lemma NoneEntryIsAPrefix(names: seq<string>)
    ensures DepthColumns(names, Some("None")).Ok?
    ensures forall c | c in names && "None" <= c :: c in DepthColumns(names, Some("None")).value
    ensures forall c | c in DepthColumns(names, Some("None")).value :: c in names && "None" <= c
  {
    var s := "None";
    assert s[1..] == "one" && s[1..][1..] == "ne" && s[1..][1..][1..] == "e";
    assert LeadingLetters("e") == "e";
    assert LeadingLetters(s) == s;
    KeepSpec(names, StartsWith(s));
  }

  function NotIn(cols: seq<string>): string -> bool {
    c => c !in cols
  }

  /** The attribute columns that are not depth columns
      (`attr_col not in depth_columns`): the attributes a record carries. */
  function Fields(attrs: seq<string>, depth: seq<string>): (f: seq<string>)
    ensures forall c | c in f :: c in attrs && c !in depth
  {
    KeepSpec(attrs, NotIn(depth));
    Keep(attrs, NotIn(depth))
  }

  /** The carried attributes are attribute columns, never depth columns and
      never a role column or one of its case variants, and keep table order. */
  lemma FieldsSpec(names: seq<string>, x: string, y: string, z: string, depth: seq<string>)
    requires Distinct(names)
    ensures var a := AttributeColumns(names, x, y, z);
      var f := Fields(a, depth);
      && (forall c | c in f :: c in a && c !in depth)
      && (forall c | c in a && c !in depth :: c in f)
      && (forall c | c in f :: c in names && Lower(c) != Lower(x) && Lower(c) != Lower(y) && Lower(c) != Lower(z))
      && Distinct(f)
      && (forall i, j | 0 <= i < j < |f| :: IndexOf(names, f[i]) < IndexOf(names, f[j]))
  {
    var a := AttributeColumns(names, x, y, z);
    AttributeColumnsSpec(names, x, y, z);
    KeepSpec(a, NotIn(depth));
    KeepKeepsOrder(a, NotIn(depth));
    var f := Fields(a, depth);
    forall i, j | 0 <= i < j < |f|
      ensures IndexOf(names, f[i]) < IndexOf(names, f[j])
    {
      var ia, ja := IndexOf(a, f[i]), IndexOf(a, f[j]);
      assert ia < ja;
      assert a[ia] == f[i] && a[ja] == f[j];
    }
  }
}
