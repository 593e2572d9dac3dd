# json-excel table layout, modelled in Dafny

The service turns a page of dashboard components into one Excel worksheet.
Every component becomes one table. The model covers the pure part of that
work in `src/app.service.ts`:

- `alphabet`: the 26 column letters.
- `parseCell`: splits a cell reference such as `C3` into the column index,
  the letter group and the row number, and throws when the reference is not
  capital letters followed by digits.
- `buildTableRows`: turns the first record set of a component into header
  columns `(name)`, `(value)`, `(k)`… with no filter buttons, plus one row of
  values per record.
- `getSpread`: the top-left and bottom-right cells a table occupies.
- The `forEach` loop of `fillSheet`: the first table is anchored at `B3`, and
  each next one at the first table's column letter, two rows below the
  previous table's bottom row. Adding a table to the sheet is modelled as
  appending the table's properties and its spread to the result. An
  exception ends the loop, and the model reports it as the failure.

Modules:

- `Wrappers`: `Option` and `Result`.
- `Errors`: the exceptions the code raises.
- `Decimal`: the unary `+` on digit strings and number-to-text rendering.
- `CellRef`: the alphabet, `indexOf`, `parseCell` and anchor formatting.
- `TableRows`: records and `buildTableRows`.
- `Layout`: the table name, `getSpread` and the `fillSheet` loop.
- `Sample`: the page the `/excel` endpoint renders in `src/app.controller.ts`.

Three consequences of the code are worth spelling out:

- The bottom row of a table is the anchor row plus the number of data rows;
  the header row is counted at the anchor. On the sample page the first table
  therefore spans B3..E7 and the second starts at B9 and spans B9..C13.
  Counting the header as an extra row would give E8 and a next anchor of
  B10; `bottom = from.row + rows` does not.
- The doc comment of `parseCell` says `C3` gives column 1. The code gives
  column 3, the letter's position in the alphabet counted from 1.
  `CellRef.ParseCellExamples` states the code's result.
- A reference with several letters (`AA12`) matches the pattern, but
  `alphabet.indexOf` finds no such entry, so its column is 0.

## Model

| member | source | states |
|---|---|---|
| CellRef.Alphabet | src/app.service.ts:17-20 | There are 26 entries, and entry i is the one-character string with character code 65 + i. |
| CellRef.IndexOf | src/app.service.ts:30 | The result is -1 exactly when the value is absent; otherwise it is the first position holding the value. |
| CellRef.UpperPrefix | src/app.service.ts:29 | The greedy `[A-Z]+` group: the prefix it takes is all capitals, and the next character, if any, is not a capital. `CellRef.SplitUnique` shows it is the only place a letters/digits split can fall. |
| CellRef.ColumnOf | src/app.service.ts:30 | The column of any letter group is between 0 and 26. |
| CellRef.ColumnIsAlphabetIndex | src/app.service.ts:30 | The column is `alphabet.indexOf(letter) + 1`. It is positive exactly when the letter group is an entry of the alphabet, which means a single capital letter. |
| CellRef.AlphabetAt | src/app.service.ts:156 | `alphabet[i]` is defined exactly for 0 <= i < 26, and then it is the one letter with code 65 + i. |
| CellRef.AlphabetAtIsEntry | src/app.service.ts:156 | The letter looked up for index i is entry i of the alphabet, and `undefined` past either end. |
| CellRef.ColumnOfAlphabetAt | src/app.service.ts:155-156 | The letter of column i + 1 has column i + 1 (column to letter to column). |
| CellRef.AlphabetRoundTrip | src/app.service.ts:17-20 | Looking up the column of a single capital letter in the alphabet returns that letter (letter to column to letter). |
| CellRef.ParseCell | src/app.service.ts:28-36 | A failure is always the unmatched-reference error for that reference. A success has a non-empty, all-capital letter group, and its column is that group's alphabet column. |
| CellRef.ParseCellMatches | src/app.service.ts:28-36 | Parsing succeeds exactly when the reference matches `^([A-Z]+)(\d+)$`. For any letters/digits split of the reference, the result is that split's column, letters and digit value. |
| CellRef.ParseSplit | src/app.service.ts:29-34 | A reference split at k into capitals and digits parses to the column of the first part, the first part itself, and the decimal value of the second part. |
| CellRef.ParseSingleLetter | src/app.service.ts:28-36 | One capital letter followed by digits gives column = letter code - 64, that letter, and the value of the digits. |
| CellRef.ParseFormatCell | src/app.service.ts:28-36 | Formatting a letter group and a row, then parsing, returns that row and that letter group with its column. |
| CellRef.FormatParseCell | src/app.service.ts:28-36 | For a reference whose digits have no leading zero, formatting the parsed letters and row reproduces the reference. |
| CellRef.ParseRejects | src/app.service.ts:29 | The match throws for an empty reference, one not starting with a capital, one not ending with a digit, and one holding any other character. |
| CellRef.ParseCellExamples | src/app.service.ts:22-36 | `C3` parses to column 3, letter C, row 3, and `B3` to column 2, letter B, row 3. |
| CellRef.ParseTwoLetterExample | src/app.service.ts:29-30 | `AA12` parses, but to column 0, with letters AA and row 12. |
| CellRef.ParseRejectsExamples | src/app.service.ts:29 | `3B`, the empty string and `B3x` are refused. |
| CellRef.FormatCell | src/app.service.ts:206 | `${letter}${row}` starts with the letter group, and what follows is a non-empty digit string without a leading zero. `CellRef.ParseFormatCell` shows it parses back to the same letters and row. |
| Decimal.ValueOf | src/app.service.ts:34 | `+row` on a digit string is a natural number, positive when the string starts with a non-zero digit. `Decimal.RenderValueOf` and `Decimal.ValueOfRender` tie it to `Decimal.Render`. |
| Decimal.Render | src/app.service.ts:206 | `${n}` for a row number is a non-empty digit string without a leading zero. |
| Decimal.ValueOfRender | src/app.service.ts:34 | Reading back the digits written for a row number gives the same number. |
| Decimal.RenderValueOf | src/app.service.ts:34 | Writing the value of a digit string with no leading zero gives back the same string. |
| TableRows.Get | src/app.service.ts:134 | `d[k]` is `undefined` when no entry has key k. With distinct keys, it is the value of the entry with key k. |
| TableRows.Rest | src/app.service.ts:132 | `rest` is no longer than the record and holds no `name` or `value` entry. |
| TableRows.RestEntries | src/app.service.ts:132 | `rest` holds exactly the entries whose key is neither `name` nor `value`. |
| TableRows.RestOne | src/app.service.ts:132 | A single entry is kept exactly when its key is neither `name` nor `value`. |
| TableRows.RestAppend | src/app.service.ts:132 | The rest of two concatenated entry lists is the rest of the first followed by the rest of the second, so the kept entries keep the record's order. With `RestOne` this determines `rest` for every record. |
| TableRows.Row | src/app.service.ts:133-134 | A row has one cell per key: `name`, `value` and one per remaining entry. Its first two cells are `d.name` and `d.value`. |
| TableRows.Header | src/app.service.ts:137-142 | The header has one column per key: `name`, `value` and one per remaining entry. No column has a filter button. |
| TableRows.RowLayout | src/app.service.ts:131-135 | A row is `d.name`, then `d.value`, then the values of the remaining entries in record order. |
| TableRows.RowsLayout | src/app.service.ts:131-135 | Every record's row has that name, value, rest layout. |
| TableRows.BuildTableRows | src/app.service.ts:130-144 | Building succeeds exactly when `data[0]` exists and is non-empty. A missing `data[0]` and a missing first record throw their own errors. There is one row per record. |
| TableRows.BuildTableRowsContent | src/app.service.ts:130-144 | Row i belongs to record i. The header has 2 + (number of remaining keys of the first record) columns: `(name)`, `(value)`, then `(k)` for each remaining key in order, none with a filter button. |
| TableRows.HeaderLayout | src/app.service.ts:137-142 | The header is `(name)`, `(value)`, then one `(k)` column per remaining key of the record, without filter buttons. |
| TableRows.HeaderAlignsWithRows | src/app.service.ts:130-144 | If every record lists its remaining keys in the first record's order, then cell j of every row holds the value of the key that column j is named after. |
| Layout.RemoveFirst | src/app.service.ts:192 | Without the character, the string is unchanged. With it, exactly one character is gone. |
| Layout.RemoveFirstSplit | src/app.service.ts:192 | Only the first occurrence is removed. Everything before it (which does not contain the character) and everything after it is kept as is. |
| Layout.RemoveFirstCount | src/app.service.ts:192 | The result holds the same characters with one copy of the removed character fewer. |
| Layout.TableName | src/app.service.ts:192 | The name starts with `Component` and is one character shorter than `Component` + uuid when the uuid contains a `-`, and exactly that long otherwise. |
| Layout.TableNameDropsFirstDash | src/app.service.ts:192 | The table name is `Component` followed by the uuid with only its first `-` removed. |
| Layout.TableNameExample | src/app.service.ts:192 | `a-b-c` gives `Componentab-c`. |
| Layout.GetSpread | src/app.service.ts:151-166 | Fails exactly when the anchor does not parse. `from` is the parsed anchor. The right column is from.col + columns - 1, and the bottom row is from.row + rows. The right letter is defined exactly for columns 1..26 and names that column. |
| Layout.PlaceTable | src/app.service.ts:189-204 | One loop pass fails exactly when building the component's rows fails, with the same error. Otherwise the table sits at the current anchor, and its spread starts there. |
| Layout.PlaceTableFor | src/app.service.ts:190-204 | The table added in a pass has the name from the uuid, a header row and no totals row, the built columns and rows, and the spread `getSpread` computes for it. |
| Layout.NextAnchor | src/app.service.ts:206 | The next anchor parses to the same column and letter, at row to.row + 2. |
| Layout.Fill | src/app.service.ts:189-208 | The loop adds at most one table per component, and it adds all of them exactly when no exception occurs. |
| Layout.FillStops | src/app.service.ts:189-190 | The loop stops only at the first component whose rows cannot be built, and reports that component's error. |
| Layout.PlacedExtent | src/app.service.ts:151-166 | An added table spans one column per header entry and one row per data row below its anchor. Its right letter exists exactly within A..Z. |
| Layout.FillTables | src/app.service.ts:189-203 | The i-th table added is the table of the i-th component, so input order is preserved. |
| Layout.FillStarts | src/app.service.ts:188-193 | The first table sits at the anchor the loop starts from. |
| Layout.FillInColumn | src/app.service.ts:204-206 | Every table starts in the column, and with the letter, of the starting anchor. |
| Layout.FillThreaded | src/app.service.ts:206 | Each later table's reference is the starting letter followed by the previous table's bottom row + 2. |
| Layout.FillStacked | src/app.service.ts:204-206 | Each later table starts two rows below the previous table's bottom row. |
| Layout.NoOverlap | src/app.service.ts:204-206 | Each table's bottom row is at or below its anchor, and every later table starts strictly below every earlier table's bottom row. |
| Layout.FirstAnchorCell | src/app.service.ts:188 | The first anchor `B3` is column 2, letter B, row 3. |
| Layout.FillSheet | src/app.service.ts:182-209 | One table per component, in order, until a component without records throws. Each table carries that component's name, columns and rows. |
| Layout.FillSheetAnchors | src/app.service.ts:188-206 | The first table is at `B3`. Every table is in column B. Each next anchor is `B` followed by the previous bottom row + 2. |
| Layout.FillSheetExtents | src/app.service.ts:151-166 | Each table's right column is 1 + its column count. Its bottom row is its anchor row + its row count. Its right letter exists exactly up to column Z and names that column. |
| Layout.FillSheetNoOverlap | src/app.service.ts:204-206 | No two of the sheet's tables share a row: every later table starts below every earlier table's bottom row. |
| Sample.PageShape | src/app.controller.ts:19-49 | On the sample page, the staff table has 4 columns and 4 rows, and the projects table has 2 columns and 4 rows. |
| Sample.SampleLayout | src/app.controller.ts:19-50 | `fillSheet` on the sample page adds both tables without failing: B3..E7 and B9..C13. |
| Sample.StaffHeader | src/app.controller.ts:22-34 | The staff table's header is `(name)`, `(value)`, `(increase)`, `(decrease)`, all without filter buttons. |
| Sample.StaffFirstRow | src/app.controller.ts:28 | The staff table's first row is 后台, 14, 0, 1. |

## Left out

- Workbook I/O is not modelled: `buildExcel`, `readExcel` with its template file, `xlsx.writeBuffer` and the HTTP response in the controller.
- The sheet created by `addWorksheet` is not modelled: its title (`screen.title || '页面'`), its view options and the width of column A. The model only records the tables added to it.
- ExcelJS itself is foreign code and is not modelled. `addTable` is modelled as always succeeding. Checks ExcelJS might make on table names or overlapping ranges are left out, as are the table style and `formatTable`, whose body is empty.
- `printComponent`, `printData`, `getHello` and the `console.log` in the loop are not on the path of `fillSheet`'s layout.
- Object.keys ordering is not modelled: a record is the sequence of its entries in enumeration order, so JavaScript's ordering of integer-like keys is taken as given.
- Record values are limited to primitives (`undefined`, `null`, booleans, integers and strings). Nested objects and floating-point numbers are not modelled.
- Decimal.ValueOf: numbers are unbounded integers. The rounding of `+row` on digit strings beyond 2^53, and exponent notation in number-to-text rendering, are not modelled.
- Fill: requires that its anchor parses. This is the loop invariant, not a requirement of the source: the loop starts at `B3`, and every next anchor is a letter followed by digits. Its contracts are stated for such anchors only.
- PlaceTable: requires that the anchor parses, for the same reason as `Fill`.
- NextAnchor: requires the anchor's letter group to be defined and all capitals, which every parsed anchor satisfies.
- ParseCell: the match's other failure mode, a non-string argument, cannot arise because references are always strings.
