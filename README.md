# csv_to_ply conversion step, modelled in Dafny

`csv_to_ply` is a small web tool. It reads a CSV upload, lets the user pick
the x, y and z columns and, optionally, a "depth" column, and writes the
points as a PLY point cloud named after the upload. This project models the
conversion step of its `convert_to_ply` callback, from the loaded table to
the record schema and the point records handed to the PLY writer. It also
models the rule that names the output file. Then it proves what that step
promises.

The model takes the loaded table as given:

- a sequence of distinct column names;
- one numpy dtype kind character per column;
- rows of cells, each cell `Null` (NaN or None), `Num(real)` or `Text(string)`.

It models, in the code's own order:

- **Role gate** (`Classify.RoleGate`). Pandas `df[name]` lookups and the
  `dtype.kind in 'if'` test, with Python's left-to-right `or`:
  - a role name that is not a column raises `KeyError`;
  - a non-numeric role gives the dedicated "numeric data" answer.
- **Attribute columns** (`Classify.AttributeColumns`). A list comprehension
  over the columns that compares lower-cased names.
- **Depth columns** (`Classify.DepthColumns`). `re.match('^([a-zA-Z]+)')` on
  the selector, then a case-sensitive `startswith` over the column names.
  - The dropdown's `'None'` entry is the string `"None"`, so it is an
    ordinary selector.
- **Row expansion**. Both loops are imperative methods, proved against
  specification functions:
  - `Expander.Expand` is the loop over rows;
  - `Expander.ExpandRow` is the inner loop over depth columns, which reads
    the depth from the first digit run of the column name before it looks
    at the cell.
- **Schema**. The loop that builds the `dtype` list (`Schema.BuildSchema`).
  numpy refuses a repeated field name when it builds the array, which the
  model treats as one more failure.
- **Output name**. `os.path.basename` then `os.path.splitext`, POSIX rules
  (`Paths.OutputName`).

`Convert.Conversion` is the whole step as one function. `Convert.Convert` is
the same step written as the body of the `try` block. Every exception the
modelled step can raise, apart from those listed under "Left out", is one
`Failure` value:

- `MissingColumn`;
- `NoLetterPrefix`;
- `NoDigitRun`;
- `DuplicateField`.

Three behaviours of the code are easy to misread, and the model keeps them
as written:

- **Depth value position.** A depth record carries the depth cell at index
  3, ahead of the carried attributes (`converter.py:200`). The schema names
  index 3 after the first carried attribute and puts `value` last
  (`converter.py:204-209`). So with carried attributes, field names and
  values do not line up. `Convert.DepthSchemaValueLast` and
  `Convert.DepthRecordValueFourth` state this mismatch.
- **Role columns as depth columns.** The case-sensitive prefix match
  (`converter.py:187`) can select the x, y or z column; for example, the
  selector `z1` selects the column `z`. `Classify.DepthColumnsSpec` states
  the selection exactly, role columns included.
- **Role errors.** A role that is not a column raises `KeyError`, which
  names that role. Only a present column of the wrong kind gets the
  numeric-data answer (`converter.py:177-179`).

## Model

| member | source | states |
|---|---|---|
| `Classify.CheckRole` | converter.py:177-178 | One role passes exactly when it is a column of integer or float kind. A name that is not a column fails with `MissingColumn` of that name; a present column can only fail with the numeric-data answer. |
| `Classify.RoleGate` | converter.py:177-179 | The gate passes exactly when x, y and z are all columns of integer or float kind. When all three are columns and one is not numeric, the answer is the numeric-data one. Otherwise the roles are looked up left to right: a missing x is `MissingColumn(x)`; a non-numeric x gives the numeric-data answer without y or z being looked at; after a numeric x, a missing y is `MissingColumn(y)`; after numeric x and y, a missing z is `MissingColumn(z)`. |
| `Convert.GateComesFirst` | converter.py:177-179 | When a role fails the gate, the conversion fails whatever the rows hold, and replacing the rows does not change the outcome. When all three roles are columns, the failure is the numeric-data answer, and so it is for a non-numeric x even when y or z is not a column. Otherwise the first missing role, in x, y, z order, is the one named. |
| `Classify.AttributeColumns` | converter.py:181-182 | Every attribute column is a table column whose lower-cased name differs from each lower-cased role name. |
| `Classify.AttributeColumnsSpec` | converter.py:181-182 | The attribute columns are exactly the columns whose lower-cased name differs from each lower-cased role name. They are listed once each, in table order, so a column `X` is dropped when x is `x`. |
| `Strings.LetterPrefix` | converter.py:186 | A group prefix, when there is one, is a non-empty run of ASCII letters that starts the selector. |
| `Strings.LetterPrefixSpec` | converter.py:186 | The selector has a group prefix exactly when it starts with an ASCII letter. The prefix is then the maximal leading run of letters. |
| `Classify.DepthColumns` | converter.py:184-187 | Every depth column is a table column. The only failure is a selector without a leading letter. |
| `Classify.DepthColumnsSpec` | converter.py:184-187 | With no selector there are no depth columns. A selector fails exactly when it does not start with a letter. Otherwise the depth columns are exactly the columns, in table order, that start case-sensitively with the selector's maximal letter run. This can include the role columns. |
| `Classify.NoneEntryIsAPrefix` | converter.py:143 | The dropdown's `'None'` entry selects exactly the columns whose name starts with `None`. |
| `Convert.SelectorWithoutLetterFails` | converter.py:186 | Once the gate has passed, a selector that does not start with a letter fails the conversion (the regular expression has no match). |
| `Classify.Fields` | converter.py:194 | Every carried attribute is an attribute column that is not a depth column. |
| `Classify.FieldsSpec` | converter.py:194 | The carried attributes are the attribute columns that are not depth columns. They are never a role column or a case variant of one, never repeat, and keep table order. |
| `Strings.FirstDigitRun` | converter.py:197 | Reads the value of the first maximal run of decimal digits in a name, or reports that there is none. `Strings.FirstDigitRunNone` and `Strings.FirstDigitRunSplit` state when each happens and which value is read. |
| `Strings.FirstDigitRunNone` | converter.py:197 | Reading a depth from a column name fails exactly when the name holds no decimal digit. |
| `Strings.FirstDigitRunSplit` | converter.py:197 | A name made of a digit-free head, a maximal digit run and a tail that does not start with a digit reads as the value of that run. |
| `Strings.DepthOfNumberedName` | converter.py:197 | A name such as `depth10` (letters, the numeral of n, then no digit) reads as n. |
| `Expander.Shifted` | converter.py:200 | The lowered z is the z cell minus the depth divided by 100: adding depth / 100 back gives z. A missing z stays missing, as NaN minus a number is NaN. |
| `Expander.AttrValues` | converter.py:194 | A row's carried values list one cell per carried attribute, value k being the row's cell in attribute column k. |
| `Expander.PlainRecord` | converter.py:201-202 | A record without depth columns has three coordinates plus one field per carried attribute, and attribute k's value sits at index 3 + k, the position the schema gives attribute k. |
| `Expander.DepthRecord` | converter.py:196-200 | A depth record has four leading fields plus one per carried attribute. The depth cell sits at index 3 and attribute k's value at index 4 + k, one place after the position the schema gives attribute k. |
| `Expander.RowDepthRecords` | converter.py:196-200 | The first j depth columns of a row yield at most j records, each with four leading fields plus one per carried attribute. |
| `Expander.Expansion` | converter.py:189-202 | The expansion fails exactly when there is a row and some depth column's name has no digit, and the failure is then `NoDigitRun`. Without depth columns a success has one record per row. With depth columns it has one record per present (row, depth column) cell. |
| `Expander.ExpandRow` | converter.py:196-200 | For one row, every depth column's name is parsed before its cell is tested. A name without a digit fails the row. Otherwise the row appends one record per present depth cell, in depth-column order. |
| `Expander.Expand` | converter.py:189-202 | The loop over rows yields exactly `Expansion`. A depth column without a digit fails as soon as there is a row. |
| `Expander.PlainRecordsAt` | converter.py:201-202 | Without depth columns there is one record per row, in row order, equal to x, y, z followed by the carried attribute values. |
| `Expander.RowDepthCount` | converter.py:195-200 | A row yields as many records as it has present cells among the depth columns. |
| `Expander.RowRecordSource` | converter.py:196-200 | Each record a row yields is the depth record of one of its present depth cells. |
| `Expander.RowRecordAt` | converter.py:196-200 | The record of a present depth cell sits in the row's output after one record for each present cell before it. |
| `Expander.DepthRecordsCount` | converter.py:189-200 | With depth columns, the number of records equals the number of present (row, depth column) cells. |
| `Expander.RecordSource` | converter.py:189-200 | Every record of the expansion is the depth record of a present (row, depth column) cell. |
| `Expander.RecordAt` | converter.py:189-200 | Records come row by row and, within a row, in depth-column order. The record of present cell (i, k) is at the position equal to the present cells of earlier rows plus the present cells before k in row i. |
| `Expander.PresentCellOf` | converter.py:189-200 | A record that is in the output names the present cell it came from. |
| `Expander.RecordOfPresentCell` | converter.py:189-200 | Every present depth cell's record is in the output. |
| `Expander.DepthRecordPrefix` | converter.py:200 | A depth record starts with x, y, z minus the depth divided by 100, and the cell's value. |
| `Expander.DepthRecordsFromCells` | converter.py:195-200 | Every record comes from a present cell and starts with that row's x, y, lowered z and cell value. |
| `Expander.DepthRecordsCoverCells` | converter.py:195-200 | Every present cell gives its record. |
| `Expander.DepthValuesPresent` | converter.py:199-200 | Every depth-mode record carries a non-missing value in fourth place. |
| `Expander.NoPresentCells` | converter.py:199 | Rows whose depth cells are all missing have no present cell to emit. |
| `Common.KeepSpec` | converter.py:181-182 | The filtering comprehension keeps exactly the elements that satisfy its condition. |
| `Common.KeepKeepsOrder` | converter.py:181-182 | Filtering a list without repeats gives a list without repeats, in the original relative order. |
| `Common.FlattenAt` | converter.py:189-202 | When rows' records are appended to one list, element k of row i follows the elements of all earlier rows. |
| `Common.FlattenSource` | converter.py:189-202 | Every element of the appended list is an element of one of the rows. |
| `Schema.SchemaFor` | converter.py:204-209 | The schema has `x, y, z` first, then attribute k at index 3 + k, then `value` last in depth mode; its length counts exactly these. |
| `Schema.BuildSchema` | converter.py:204-209 | The schema loop yields `x, y, z`, then the attribute columns that are not depth columns, in order, then `value` exactly when there are depth columns. |
| `Schema.SchemaDistinct` | converter.py:204-211 | The schema has no repeated name, which numpy requires, exactly when the carried attributes are distinct, none of them is literally `x`, `y` or `z`, and, in depth mode, none is `value`. |
| `Convert.Conversion` | converter.py:174-211 | A conversion succeeds only after all three roles pass the gate. It yields a schema without repeated names that starts with `x, y, z`. A digit-parse failure happens only on a table with rows. |
| `Convert.Convert` | converter.py:174-211 | The step-by-step body of the `try` block computes exactly `Conversion`. |
| `Convert.ConversionSucceeds` | converter.py:174-211 | The conversion succeeds exactly when all three roles pass the gate, the selector yields depth columns, every depth column's name holds a digit or there is no row, and the schema names no field twice. Otherwise it fails. |
| `Convert.ConvertedParts` | converter.py:177-211 | A successful conversion passed the gate and chose its depth columns. Its records are the expansion of all rows, and its schema is built from the carried attributes. |
| `Convert.DigitlessDepthColumnFails` | converter.py:197-199 | Once the gate passes, a depth column whose name has no digit fails the conversion as soon as there is a row, even when all its cells are missing. |
| `Convert.PlainConversion` | converter.py:201-202 | Without depth columns, a successful conversion has schema `x, y, z, fields...` and one record per row, in row order, equal to x, y, z and the row's carried attribute values. |
| `Convert.DepthConversionCount` | converter.py:195-200 | With depth columns, the number of records equals the number of present (row, depth column) cells. |
| `Convert.AllDepthCellsMissing` | converter.py:199 | With depth columns, a table whose depth cells are all missing converts to no record. |
| `Convert.DepthConversionSound` | converter.py:195-200 | With depth columns, every record comes from a present cell of row i and depth column c. It starts with the row's x, y, z minus c's number divided by 100, and the cell's value. |
| `Convert.DepthConversionComplete` | converter.py:195-200 | With depth columns, every present (row, depth column) cell gives its record. |
| `Convert.RecordsMatchSchema` | converter.py:200-209 | In both modes, every record has exactly as many fields as the schema. |
| `Convert.DepthSchemaValueLast` | converter.py:204-209 | With depth columns and a carried attribute, the schema names index 3 after that attribute, never `value`, and puts `value` last. |
| `Convert.DepthRecordValueFourth` | converter.py:200 | With depth columns, every record carries the non-missing depth cell at index 3. |
| `Scenarios.DepthGroupExample` | converter.py:174-211 | Worked example: columns `x, y, z, depth10, depth20`, selector `depth10`, and one row whose `depth20` cell is missing. The conversion gives schema `x, y, z, value` and the single record `(1, 2, 2.9, 5)`. |
| `Scenarios.PlainConverts` | converter.py:174-211 | A table with columns `x, y, z, temp`, all of float kind, and no depth selector passes every check, so its conversion succeeds. |
| `Scenarios.PlainExample` | converter.py:189-209 | Worked example: columns `x, y, z, temp`, no depth selector, and three rows, the last with a missing `temp`. The conversion gives schema `x, y, z, temp` and three records, one per row in row order, each the row's own cells, the missing `temp` included. |
| `Paths.BaseName` | converter.py:223 | The base name is the part of the path after its last `/`, so it contains no `/`. |
| `Paths.LastDot` | converter.py:223 | Finds the position of the last `.`, or reports that there is none. |
| `Paths.SplitExt` | converter.py:223 | Root plus extension is the base name. The extension is empty or a dot followed by dot-free text. |
| `Paths.SplitExtFindsExtension` | converter.py:223 | The extension is non-empty exactly when some dot has a non-dot character before it, and a non-empty extension leaves a root that is not all dots. |
| `Paths.OutputName` | converter.py:223-224 | The output name contains no `/` and ends in `.ply`. |
| `Paths.OutputNameOf` | converter.py:223-224 | An upload named `dir/stem.ext` is written as `stem.ply`. |
| `Paths.OutputNameWithoutDot` | converter.py:223-224 | A base name without a dot keeps its whole name before `.ply`. |
| `Paths.OutputNameOfDotName` | converter.py:223-224 | A hidden-file name such as `.csv` has no extension to drop and is written as `.csv.ply`. |

## Left out

- The Dash layout, the upload callback and the HTML answers are left out
  because they are user interface. This includes the `n_clicks` and
  `contents` checks and the success and error pages. `Failure` stands for the
  two error answers.
- Base64 decoding, UTF-8 decoding and `pd.read_csv` parsing are left out as
  I/O. Pandas dtype inference is also left out: the loaded table, its column
  kinds and its cells are inputs.
- Encoding detection and delimiter sniffing in the upload callback are left
  out because they are foreign heuristics that the conversion path does not
  use.
- Duplicate header names are a precondition (`Frame.WellFormed`), because
  pandas renames repeated headers before this code sees them. So are full
  rows, and numeric-kinded columns that hold no text.
- A role selection that is Python `None` (nothing picked) is modelled as a
  name that is not a column. Like `df[None]`, it fails with `MissingColumn`.
- `Convert.Conversion`: the `np.array(..., 'f4')` cast is not modelled. In
  the source, a text cell in a carried attribute column or a depth column
  whose text does not read as a number (such as `abc`; `"1.5"` is accepted)
  makes that cast raise. The model returns such records as converted.
- Numbers are exact reals. The model does not round `z - depth / 100` or
  the cells to 32-bit floats, and does not model how pandas turns integer
  columns into floats row by row.
- `Strings.Lower` folds ASCII letters only, where Python's `str.lower`
  handles all of Unicode.
- `Strings.FirstDigitRun` reads ASCII digits only, where Python's `\d` and
  `float` also accept other Unicode decimal digits.
- Writing the PLY file is left out: `PlyElement`, `PlyData` and the binary
  encoding are a foreign library, and the home-directory and `Desktop` path
  lookup and the file write are filesystem I/O. Only the file name is
  modelled.
- `Paths.OutputName` follows POSIX path rules. The Windows rules of
  `ntpath`, with `\` and drive letters, are not modelled.
