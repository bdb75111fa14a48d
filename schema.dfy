/** The field schema of the point records: every field is a 32-bit float, so
    a schema is the list of field names. */
module Schema {
  import opened Common
  import opened Classify

  /** `x`, `y`, `z`, then the carried attributes in order, then `value` when
      depth columns are in use. */
  function SchemaFor(fields: seq<string>, depthMode: bool): (s: seq<string>)
    ensures |s| == 3 + |fields| + (if depthMode then 1 else 0)
    ensures s[0] == "x" && s[1] == "y" && s[2] == "z"
    ensures forall k | 0 <= k < |fields| :: s[3 + k] == fields[k]
    ensures depthMode ==> s[|s| - 1] == "value"
  {
    ["x", "y", "z"] + fields + (if depthMode then ["value"] else [])
  }

  /** The converter's schema loop: start from the three coordinates, append
      every attribute column that is not a depth column, then `value` if there
      are depth columns. */
  method BuildSchema(attrs: seq<string>, depth: seq<string>) returns (dtype: seq<string>)
    ensures dtype == SchemaFor(Fields(attrs, depth), depth != [])
  {
    dtype := ["x", "y", "z"];
    for k := 0 to |attrs|
      invariant dtype == ["x", "y", "z"] + Fields(attrs[..k], depth)
    {
      KeepSnoc(attrs, NotIn(depth), k);
      if attrs[k] !in depth {
        dtype := dtype + [attrs[k]];
      }
    }
    assert attrs[..|attrs|] == attrs;
    if depth != [] {
      dtype := dtype + ["value"];
    }
  }

  /** The schema names no field twice exactly when the attributes are
      distinct, none of them is literally `x`, `y` or `z`, and, in depth mode,
      none is literally `value`. */
  lemma SchemaDistinct(fields: seq<string>, depthMode: bool)
    ensures Distinct(SchemaFor(fields, depthMode)) <==>
      && Distinct(fields)
      && "x" !in fields && "y" !in fields && "z" !in fields
      && (depthMode ==> "value" !in fields)
  {
    var s := SchemaFor(fields, depthMode);
    assert forall k | 0 <= k < |fields| :: s[3 + k] == fields[k];
    if Distinct(s) {
      forall i, j | 0 <= i < j < |fields| ensures fields[i] != fields[j] {
        assert s[3 + i] != s[3 + j];
      }
      forall k | 0 <= k < |fields| ensures fields[k] !in ["x", "y", "z"] {
        assert s[3 + k] != s[0] && s[3 + k] != s[1] && s[3 + k] != s[2];
      }
      if depthMode {
        forall k | 0 <= k < |fields| ensures fields[k] != "value" {
          assert s[3 + k] != s[|s| - 1];
        }
      }
    }
  }
}
