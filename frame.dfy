/** The already-loaded table the conversion works on, and the ways a
    conversion can fail. */
module Frame {
  import opened Common

  /** One cell of the table: missing (NaN or None), a number, or text. */
  datatype Cell = Null | Num(r: real) | Text(s: string)

  /** One output point, its fields in emission order. */
  type Record = seq<Cell>

  /** Column names in header order, each column's dtype kind character
      (`'i'` signed integer, `'u'` unsigned, `'f'` float, `'b'` bool,
      `'O'` object, ...) and the rows, each a cell per column. */
  datatype Table = Table(names: seq<string>, kinds: seq<char>, rows: seq<seq<Cell>>)

  /** The kinds the role gate accepts: `kind in 'if'`. */
  predicate NumericKind(k: char) {
    k == 'i' || k == 'f'
  }

  /** What the loader guarantees: one kind per column, distinct names, full
      rows, and no text in a column whose inferred kind is numeric. */
  predicate WellFormed(t: Table) {
    && |t.kinds| == |t.names|
    && Distinct(t.names)
    && (forall r | 0 <= r < |t.rows| :: |t.rows[r]| == |t.names|)
    && (forall r, c | 0 <= r < |t.rows| && 0 <= c < |t.names| && NumericKind(t.kinds[c]) ::
          !t.rows[r][c].Text?)
  }

  function Kind(t: Table, name: string): char
    requires WellFormed(t) && name in t.names
  {
    t.kinds[IndexOf(t.names, name)]
  }

  /** `row[name]` for row number `r`. */
  function At(t: Table, r: nat, name: string): Cell
    requires WellFormed(t) && r < |t.rows| && name in t.names
  {
    t.rows[r][IndexOf(t.names, name)]
  }

  /** The reasons a conversion stops. `NotNumeric` is the dedicated
      "x, y and z columns must contain numeric data" answer; the others are
      exceptions caught by the generic "Error when converting to PLY." handler:
      a role name that is not a column (KeyError), a depth selector without a
      leading letter or a depth column without a digit (no regular-expression
      match), and a field name used twice in the record schema. */
  datatype Failure =
    | MissingColumn(name: string)
    | NotNumeric
    | NoLetterPrefix
    | NoDigitRun
    | DuplicateField

  datatype Result<T> = Ok(value: T) | Err(failure: Failure)
}
