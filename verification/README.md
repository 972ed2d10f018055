# eiseXLSX in Dafny

This project models the core of eiseXLSX, a PHP library that edits an
existing XLSX workbook in memory. The library reads and writes cell values,
fills cells with colour, inserts and clones rows, and clones, renames and
removes sheets. It then renumbers the workbook's relationships so that
workbook.xml, its relationships part, `[Content_Types].xml` and
docProps/app.xml stay consistent. The whole library is one file,
`eiseXLSX.php`. The model follows its semantics under PHP 5, the only
version it runs on, since it calls `split()`.

The model is organised as the library is:

- `common.dfy` (module `Common`): the PHP built-ins the library leans on.
  These are `Option`/`Result`/`Error`, integer-to-text and `(int)` casts,
  `strtoupper`, and `explode`/`split` with `implode`.
- `address.dfy` (module `Address`): the cell address routines.
  - `index2letter` and `letter2index` are `ColumnLetters` and `LetterIndex`.
  - `cellAddress` covers the A1 and R1C1 forms.
  - `getRangeArea` and `checkAddressInRange` are also here. They read
    addresses with `cellAddress` as written, column 0 included.
- `colors.dfy` (module `Colors`): `colorW3C2Excel`, `colorExcel2W3C` and the
  indexed palette.
- `dateserial.dfy` (module `DateSerial`): `convertDateTime`, the 1900-epoch
  serial date with Excel's false 29 February 1900.
- `paths.dfy` (module `Paths`):
  - `getPathByRelTarget`, which resolves a relationship target against the
    relationships part that holds it. PHP array keys are modelled, because
    that is where the library goes wrong.
  - `getRelFilePath`, the relationships part of a part.
- `placement.dfy` (module `Placement`): the search of
  `insertElementByPosition` and the renumbering it does on rows. A row
  numbered below the first row is held by a PHP reference to the loop
  variable, which the renumbering loop rebinds. So the row goes in before
  the last row, and the model places it there (see Findings).
- `worksheet.dfy` (module `Worksheets`): a sheet's rows, cells and merged
  ranges as a `Worksheet` object changed in place. It has `locateRow`,
  `locateCell`, `addRow`, `addCell`, `insertElementByPosition`,
  `shiftDownMergedCells` and `cloneRow`. Each method is proved against a
  function on the sheet's value.
- `cellvalues.dfy` (module `CellValues`): `data`, the read/write entry
  point for a cell's value. It uses `addSharedString`, `updateSharedString`
  and `formatDataWrite` over a `SharedStrings` object.
- `styles.dfy` (module `Styles`): `fill` and `getFillColor` over a `Styles`
  object that holds the fills and cell formats of styles.xml.
- `workbook.dfy` (module `Workbooks`): the workbook package as a value.
  - Parts are held by absolute path. A worksheet part is a handle to a
    `Worksheet` object.
  - The other parts are the sheet list, the workbook relationships, the
    overrides, the sheetId-to-path map and the app.xml counts.
  - It has `findSheetByName`, `selectSheet`, `renameSheet`, `removeSheet`,
    `cloneSheet`, `updateWorkbookLinks`, `updateAppXML` and `renameFile` as
    functions, with their properties.
- `workbook_object.dfy` (module `WorkbookObjects`): the `Workbook` object
  whose methods change that state in place. Each method is proved equal to
  the function of the same operation.

Error paths the library signals with an exception are `Err` results. These
are an invalid address, a bad colour, a `..` above the root, a merged range
that crosses the inserted row, an unknown sheet and a missing cell. Where
the library carries on with a PHP null, the model does the same.

## Model

| member | source | states |
|---|---|---|
| Common.NatToString | eiseXLSX.php:1217 | an integer's decimal text is non-empty digits, with no leading zero except for 0 itself |
| Common.DigitsOfNatToString | eiseXLSX.php:1217 | reading the decimal text of n back as digits gives n |
| Common.NatToStringInjective | eiseXLSX.php:1399 | distinct integers have distinct decimal texts |
| Common.IntCastOfNatToString | eiseXLSX.php:1244 | `(int)` of an integer's decimal text is that integer |
| Common.DigitPrefixLength | eiseXLSX.php:1244 | the leading digit run that `(int)` reads: all digits, and maximal |
| Common.Upper | eiseXLSX.php:1337 | `strtoupper`: same length, each character upper-cased |
| Common.UpperChar | eiseXLSX.php:1367 | a letter becomes an upper-case letter |
| Common.Split | eiseXLSX.php:424 | `explode`: at least one part, and no part contains the separator |
| Common.JoinSplit | eiseXLSX.php:871-892 | `implode` after `explode` on the same separator gives back the text |
| Common.SplitWithoutSeparator | eiseXLSX.php:424 | text without the separator splits into itself alone |
| Common.SplitAtSeparator | eiseXLSX.php:424 | splitting `a<sep>b` gives `a` followed by the parts of `b` |
| Address.ColumnLetters | eiseXLSX.php:1307-1319 | `index2letter` gives upper-case letters only, and no letters exactly for 0 |
| Address.LetterIndex | eiseXLSX.php:1362-1373 | `letter2index` of letters is non-negative, and at least 1 when there are any |
| Address.LetterIndexOfColumnLetters | eiseXLSX.php:1307-1373 | `letter2index(index2letter(n)) == n` for every n |
| Address.ColumnLettersOfLetterIndex | eiseXLSX.php:1307-1373 | `index2letter(letter2index(s)) == s` for every upper-case column name (bijective base 26) |
| Address.ColumnLetterExamples | eiseXLSX.php:1307-1319 | 1→A, 26→Z, 27→AA, 52→AZ, 53→BA, 702→ZZ |
| Address.LetterPrefixLength | eiseXLSX.php:1296 | the leading letter run: all letters, and maximal |
| Address.MatchR1C1 | eiseXLSX.php:1290 | a match of `^R([0-9]+)C([0-9]+)$` yields two non-empty digit strings |
| Address.MatchA1 | eiseXLSX.php:1296 | a match of `^([a-z]+)([0-9]+)$` yields non-empty letters and non-empty digits |
| Address.CellAddress | eiseXLSX.php:1288-1304 | fails exactly when neither form matches; the A1 form keeps the text as its A1 rendering with column ≥ 1; the R1C1 form keeps it as its R1C1 rendering |
| Address.ColumnZeroLosesA1Form | eiseXLSX.php:1290-1291 | `R5C0` is accepted with column 0 and A1 rendering "5", which `cellAddress` itself refuses |
| Address.CheckedCellAddress | eiseXLSX.php:1288-1304 | the corrected parse: succeeds exactly when `cellAddress` does with column ≥ 1, and then agrees with it |
| Address.CheckedCellAddressReparses | eiseXLSX.php:1288-1304 | both renderings of an accepted address parse back to the same column and row |
| Address.FormsReparse | eiseXLSX.php:1288-1304 | an address with column ≥ 1 reparses from its A1 and its R1C1 rendering |
| Address.MatchLettersDigits | eiseXLSX.php:1290-1299 | letters then digits match the A1 pattern and not the R1C1 one |
| Address.MatchRowCol | eiseXLSX.php:1290 | `R<digits>C<digits>` matches the R1C1 pattern with those digits |
| Address.CellAddressOfA1Text | eiseXLSX.php:1296-1299 | parsing the A1 text of (x, y) gives x, y and both renderings |
| Address.CellAddressOfR1C1Text | eiseXLSX.php:1290-1292 | parsing the R1C1 text of (x, y) gives x, y and both renderings |
| Address.RangeArea | eiseXLSX.php:422-434 | `getRangeArea`, reading corners with `cellAddress` as written, returns sorted bounds: left ≤ right, top ≤ bottom |
| Address.RangeAreaOfColumnZero | eiseXLSX.php:422-434 | `R5C0` is read as the one-cell area in column 0, row 5 |
| Address.RangeAreaOfCorners | eiseXLSX.php:422-434 | the area of `c1:c2` is the rectangle spanned by the two corners, in either order |
| Address.RangeAreaOfCell | eiseXLSX.php:428-429 | a single cell is the one-cell area |
| Address.CheckedOfA1Text | eiseXLSX.php:426-428 | an A1 text parses to its cell and is truthy as a second range corner |
| Address.SplitRangeText | eiseXLSX.php:424 | `explode(':')` of a range text gives its two corners |
| Address.NoColonInA1Text | eiseXLSX.php:397-424 | an A1 text has no colon and no space |
| Address.Areas | eiseXLSX.php:397-400 | one area per space-separated range |
| Address.AreaAt | eiseXLSX.php:400 | the i-th area is `getRangeArea` of the i-th range |
| Address.FirstContainingMeaning | eiseXLSX.php:398-409 | true iff some range contains the cell and every range before it parses; false iff all parse and none contains it |
| Address.CellInOneRange | eiseXLSX.php:393-411 | a cell is in a one-range haystack iff it lies inside the normalised rectangle |
| Address.OneRangeScan | eiseXLSX.php:397-409 | a haystack without spaces is checked against its single area |
| Address.NoSpaceInRangeText | eiseXLSX.php:397 | a range text has no space, so it is one range |
| Colors.ColorW3CToExcel | eiseXLSX.php:1334-1338 | fails with `BadColor` exactly when no `#RRGGBB` occurs; the result has no lower case and the leading `#` becomes `FF` |
| Colors.ColorExcelToW3C | eiseXLSX.php:1355-1359 | fails with `BadColor` exactly when no 8-hex-digit run occurs; the result has no lower case and the leading pair becomes `#` |
| Colors.UpperHex | eiseXLSX.php:1337 | upper-casing hex digits keeps them hex digits with no lower case |
| Colors.UpperUpper | eiseXLSX.php:1358 | `strtoupper` is idempotent |
| Colors.W3CRoundTrip | eiseXLSX.php:1334-1359 | `#rrggbb` → `FFRRGGBB` → `#RRGGBB`: the round trip keeps the colour, upper-cased |
| Colors.ExcelRoundTripDropsAlpha | eiseXLSX.php:1346-1359 | ARGB → W3C → ARGB replaces the alpha byte with `FF` |
| Colors.BadW3CColor | eiseXLSX.php:1335-1336 | a colour without `#`, or with five digits, is refused |
| DateSerial.DaysBeforeIsSum | eiseXLSX.php:1038-1047 | days before month m+1 = days before month m + the length of month m |
| DateSerial.SerialJanuary1900 | eiseXLSX.php:1046-1055 | 1900-01-d is serial d |
| DateSerial.SerialFebruary1900 | eiseXLSX.php:1023-1055 | 1900-02-d is serial 31+d, with the false 29 February as 60 |
| DateSerial.SerialMarch1900 | eiseXLSX.php:1055 | 1900-03-01 is 61, after the skipped false leap day |
| DateSerial.SerialExample2000 | eiseXLSX.php:1031-1056 | 2000-01-01 is 36526 |
| DateSerial.InvalidDateGivesZero | eiseXLSX.php:1041-1043 | a date outside 1900–9999 or with a bad month or day gives 0 days |
| DateSerial.RawDaysAfterFebruary1900 | eiseXLSX.php:1046-1052 | every valid date from 1900-03-01 has at least 60 raw days, so the +1 applies |
| DateSerial.YearBoundary | eiseXLSX.php:1048-1051 | 1 January follows 31 December of the year before by one day |
| DateSerial.ConsecutiveDates | eiseXLSX.php:1031-1056 | from 1900-03-01 on, successive calendar days have successive serials |
| DateSerial.DateTextFound | eiseXLSX.php:1011-1014 | the date pattern finds year, month and day in `YYYY-MM-DD` text |
| DateSerial.ConvertDate | eiseXLSX.php:1005-1057 | a `YYYY-MM-DD` text converts to that date's serial and no time |
| DateSerial.ConvertDateAndTime | eiseXLSX.php:1015-1018 | `YYYY-MM-DD hh:mm:ss` adds h·3600+m·60+s seconds of the day |
| DateSerial.ConvertExample2024 | eiseXLSX.php:1005-1057 | 2024-03-01 converts to 45352 |
| Paths.TrimTrailingSlashes | eiseXLSX.php:871 | `rtrim('/')`: a prefix with no trailing slash, and only slashes removed |
| Paths.TrimLeadingSlashes | eiseXLSX.php:874 | `ltrim('/')`: a suffix with no leading slash |
| Paths.LastSlash | eiseXLSX.php:870 | the last `/` of a path, or none when it has none |
| Paths.PhpListOf | eiseXLSX.php:871 | the array `split` builds: keys 0..n-1 in order, next free key n |
| Paths.Values | eiseXLSX.php:892 | what `implode` sees: the values in order |
| Paths.ValuesOfPhpList | eiseXLSX.php:871-892 | the values of a freshly split array are the parts |
| Paths.FindKey | eiseXLSX.php:880 | the position holding a key, or none when no entry has it |
| Paths.Walk | eiseXLSX.php:875-890 | the corrected walk over target segments fails only with `PathAboveRoot` |
| Paths.WalkPlain | eiseXLSX.php:875-890 | without `.` and `..` the walk appends every segment |
| Paths.WalkAsWrittenPlain | eiseXLSX.php:875-890 | as written, without `.` and `..`, the walk appends every segment too |
| Paths.PathByRelTargetAgrees | eiseXLSX.php:867-893 | the code as written and the corrected resolution agree on targets without `.` and `..` |
| Paths.WalkAboveRoot | eiseXLSX.php:879-883 | `..` at the root fails; two `..` from depth two reach the root; a third fails |
| Paths.RemoveAllAbsent | eiseXLSX.php:897 | `str_replace` of an absent pattern changes nothing |
| Paths.DirnameOfChild | eiseXLSX.php:897 | `dirname` and `basename` of `dir/name` are `dir` (or `/`) and `name` |
| Paths.RelFilePathOfChild | eiseXLSX.php:896-898 | the corrected rels path of `dir/name` is `dir/_rels/name.rels` |
| Paths.RelFilePathRoundTrip | eiseXLSX.php:867-898 | the part's own name, resolved from its rels part, is the part: `getPathByRelTarget(getRelFilePath(p), basename(p)) == p` |
| Paths.BaseSegmentsOfRels | eiseXLSX.php:870-871 | a rels part `dir/_rels/x.rels` resolves from the segments of `dir` |
| Paths.RelFilePathAsWrittenAgrees | eiseXLSX.php:896-898 | when the directory does not recur in `/name`, the code as written gives the corrected path |
| Paths.UpTwiceAfterPushAsWritten | eiseXLSX.php:880-881 | as written, `../a/../b` fails: after the push the last key is no longer `count-1` |
| Paths.UpTwiceAfterPushIntended | eiseXLSX.php:879-886 | corrected, `../a/../b` climbs one level and then adds `b` |
| Paths.UpTwiceAfterPush | eiseXLSX.php:879-886 | both of the above side by side on one input |
| Paths.UpTwiceFromRelsPart | eiseXLSX.php:867-893 | from a real rels part, the target `../a/../b` throws as written and resolves to `<parent>/b` when corrected |
| Paths.SplitTarget | eiseXLSX.php:874 | `../a/../b` splits into `..`, `a`, `..`, `b` |
| Paths.RelFilePathRepeatedDirectory | eiseXLSX.php:897 | for `/d/d<rest>` the code as written removes every `/d` and yields `/d/_rels<rest>.rels`; corrected it is `/d/_rels/d<rest>.rels` |
| Paths.RemoveRepeatedDirectory | eiseXLSX.php:897 | `str_replace` removes both occurrences of `/d` in `/d/d<rest>` |
| Placement.FirstAtLeast | eiseXLSX.php:1193-1208 | the first position from `from` on that is not below the target, with all positions before it below |
| Placement.InsertPosition | eiseXLSX.php:1190-1208 | the loop that finds the element to insert before returns the insertion index, and whether it stopped at the first child by the strict test (line 1198, the placement then a reference to the loop variable) |
| Placement.InsertIndexMeaning | eiseXLSX.php:1190-1208 | index 0 iff the list is empty or the target is ahead of the first; otherwise every element from the second to the index is below it, and the element at the index is not |
| Placement.InsertPastAll | eiseXLSX.php:1229-1230 | a position past every child appends |
| Placement.InsertAtZeroAmongZeros | eiseXLSX.php:1197-1205 | among children that all read position 0, a new one goes second, not first |
| Placement.Insert | eiseXLSX.php:1227-1230 | `insertBefore`: the element lands at the index and the others keep their order |
| Placement.Shifted | eiseXLSX.php:1210-1224 | every row numbered at or after the new row's number moves down by one |
| Placement.RowInsertIndexMeaning | eiseXLSX.php:1197-1228 | a row goes where the placement loop intends unless it is numbered below the first of two or more rows; then it goes before the last row |
| Placement.RowBelowFirstGoesBeforeLast | eiseXLSX.php:1197-1228 | rows 2 and 3 with row 1 inserted become 3, 1, 4 |
| Placement.RowInsertOrderAsWritten | eiseXLSX.php:1185-1232 | as written, increasing row numbers stay increasing after an insertion iff there were none, the new number is past the first row's, or it is below the only row's |
| Placement.RowInsertOrder | eiseXLSX.php:1190-1208 | corrected placement (index 0 for a row below the first): increasing row numbers stay increasing iff the new number differs from the first row's |
| Placement.RowInsertPair | eiseXLSX.php:1190-1208 | corrected placement: when the new number is not the first row's, any two rows keep their order |
| Placement.InsertedRowAt | eiseXLSX.php:1190-1208 | corrected placement: the row number at each index after insertion is unchanged before, the new one at, bumped after |
| Placement.CellInsertOrder | eiseXLSX.php:1185-1232 | cells (never shifted) stay in increasing column order when the new column is not present |
| Worksheets.RowIndexOf | eiseXLSX.php:1128-1136 | `locateRow`: the first row numbered y, or none when no row is |
| Worksheets.CellIndexOf | eiseXLSX.php:1098-1104 | the first cell whose address is the A1 or the R1C1 key, or none |
| Worksheets.CellLocation | eiseXLSX.php:1085-1107 | `locateCell`: a found cell is on the row and carries one of the two keys |
| Worksheets.LocateKeys | eiseXLSX.php:1088-1089 | the A1 key of an accepted address is a valid cell address with that column and row |
| Worksheets.LocateKeysOfRenderings | eiseXLSX.php:1088-1089 | the A1 and the R1C1 text of one cell give the same two keys |
| Worksheets.Relocate | eiseXLSX.php:1219-1220 | a moved cell keeps its column and form, gets the new row, and nothing else changes |
| Worksheets.RelocateAll | eiseXLSX.php:1218-1221 | every cell of a row is relocated |
| Worksheets.ShiftRow | eiseXLSX.php:1215-1221 | a row at or below the new one gets the next number, with its cells |
| Worksheets.ShiftRows | eiseXLSX.php:1210-1224 | every row is shifted that way and stays well formed |
| Worksheets.InsertRowSpec | eiseXLSX.php:1185-1232 | inserting a row at the placement rows take (before the last row when numbered below the first) keeps every cell address well formed |
| Worksheets.InsertCellSpec | eiseXLSX.php:1185-1232 | inserting a cell keeps every cell address well formed |
| Worksheets.RowNumbersAfterInsert | eiseXLSX.php:1185-1232 | the row numbers after a row insertion are the shifted numbers with the new one at the row placement |
| Worksheets.RowOrderAfterInsert | eiseXLSX.php:1185-1232 | rows stay in order iff there were none, the new number is past the first row's, or it is below the only row's |
| Worksheets.InsertKeepsCellsOnTheirRows | eiseXLSX.php:1215-1221 | every cell's address still names the row it sits on |
| Worksheets.AddedRowIsFound | eiseXLSX.php:1128-1146 | after adding a missing row, `locateRow` finds it at the row placement, even when that is before the last row |
| Worksheets.FirstRowFound | eiseXLSX.php:1130-1133 | the first row with number y is the one located |
| Worksheets.CellOrderAfterInsert | eiseXLSX.php:1110-1121 | cells stay in column order when a new column is inserted |
| Worksheets.ColumnsOfInsert | eiseXLSX.php:1227-1230 | the columns after a cell insertion are the old ones with the new column at the index |
| Worksheets.AddedCellIsFound | eiseXLSX.php:1110-1125 | after adding a missing cell, it is found at the insertion index |
| Worksheets.ShiftCornersMeaning | eiseXLSX.php:1157-1173 | a range that crosses the start row is a `MergeConflict`; one wholly below moves down one row; one above stays; a copy on the start row is added iff the range is on the origin row alone |
| Worksheets.MovedRangeArea | eiseXLSX.php:1166-1167 | the moved range covers the same columns one row lower |
| Worksheets.CopiedRangeArea | eiseXLSX.php:1170-1172 | the added range covers the same columns on the start row |
| Worksheets.MergeCornersColumns | eiseXLSX.php:1157-1160 | both corners of a parsed merged range have column ≥ 1 |
| Worksheets.MergeSteps | eiseXLSX.php:1156-1174 | one step per merged range |
| Worksheets.MergeStepAt | eiseXLSX.php:1156-1174 | step i is the shift of range i |
| Worksheets.ScanFrom | eiseXLSX.php:1156-1174 | the scan keeps one reference per range |
| Worksheets.ScanMeaning | eiseXLSX.php:1156-1174 | without an error every range is rewritten and exactly the copies are collected; on an error the ranges before the failing one are rewritten and the rest unchanged |
| Worksheets.ShiftMerges | eiseXLSX.php:1149-1182 | one reference per merged range |
| Worksheets.ShiftDown | eiseXLSX.php:1149-1182 | `shiftDownMergedCells` leaves the rows alone |
| Worksheets.ShiftDownBy | eiseXLSX.php:1149-1182 | applying the steps leaves the rows alone |
| Worksheets.AddRowSpec | eiseXLSX.php:1139-1146 | `addRow`, inserting at the row placement, keeps every cell address well formed |
| Worksheets.AddCellSpec | eiseXLSX.php:1110-1125 | `addCell`, adding a missing row at the row placement, keeps every cell address well formed |
| Worksheets.AddedCellLocated | eiseXLSX.php:1110-1125 | after `addCell`, `locateCell` finds the new empty cell |
| Worksheets.CloneCell | eiseXLSX.php:636-644 | a cloned cell has the same column and the new row, keeps style and formula, and loses type and value |
| Worksheets.CloneCells | eiseXLSX.php:636-644 | every cell of the source row is cloned |
| Worksheets.CloneRowSpec | eiseXLSX.php:625-654 | `cloneRow` keeps every cell address well formed |
| Worksheets.CloneRowContents | eiseXLSX.php:625-654 | the clone sits at the row placement of its number, one emptied copy per source cell on its row, and is the result |
| Worksheets.ReplaceCellKeepsLocation | eiseXLSX.php:238-256 | rewriting a cell without changing its address changes no lookup |
| Worksheets.SameNumbersSameRow | eiseXLSX.php:1128-1136 | row lookup depends only on the row numbers |
| Worksheets.SameAddressesSameCell | eiseXLSX.php:1098-1104 | cell lookup depends only on the cell addresses |
| Worksheets.Worksheet.Copy | eiseXLSX.php:738 | the copy of a worksheet has the same rows and merged ranges |
| Worksheets.Worksheet.LocateRow | eiseXLSX.php:1128-1136 | the loop returns the first row numbered y |
| Worksheets.Worksheet.LocateCell | eiseXLSX.php:1085-1107 | the loops return the cell `locateCell` finds |
| Worksheets.Worksheet.InsertRow | eiseXLSX.php:1185-1232 | the rows become the shifted rows with the new one at the row placement, which it returns; merged ranges unchanged |
| Worksheets.Worksheet.RenumberRows | eiseXLSX.php:1210-1224 | the loop shifts every row at or below the new number, and a placement bound to the loop variable ends on the last row |
| Worksheets.Worksheet.RelocateCells | eiseXLSX.php:1218-1221 | the loop readdresses every cell of a moved row |
| Worksheets.Worksheet.InsertCell | eiseXLSX.php:1185-1232 | the cell lands in its row at the insertion index; nothing else changes |
| Worksheets.Worksheet.ShiftDownMergedCells | eiseXLSX.php:1149-1182 | the sheet and error are those of `ShiftDown` |
| Worksheets.Worksheet.ApplyMergeSteps | eiseXLSX.php:1156-1180 | the sheet and error are those of `ShiftDownBy` |
| Worksheets.Worksheet.AppendMerges | eiseXLSX.php:1176-1180 | the copies are appended and the count rises by their number |
| Worksheets.Worksheet.ScanMerges | eiseXLSX.php:1156-1174 | the loop computes the scan of `ScanFrom` |
| Worksheets.Worksheet.AddRow | eiseXLSX.php:1139-1146 | the sheet follows `AddRowSpec`, and the row's index (its row placement) is returned |
| Worksheets.Worksheet.AddCell | eiseXLSX.php:1110-1125 | the sheet follows `AddCellSpec`, and the returned location holds the new cell |
| Worksheets.Worksheet.CloneRow | eiseXLSX.php:625-654 | the sheet and result follow `CloneRowSpec` |
| Worksheets.Worksheet.SetCell | eiseXLSX.php:238-256 | one cell is replaced; nothing else changes |
| CellValues.Flatten | eiseXLSX.php:216 | the plain text of one text node is its text |
| CellValues.Content | eiseXLSX.php:905-926 | a plain value becomes rich text whose plain text is the value |
| CellValues.AppendEmpty | eiseXLSX.php:979-994 | `addSharedString` appends one empty item at the old length, keeps the others, sets uniqueCount to the new length and raises count by one |
| CellValues.PointAt | eiseXLSX.php:987-991 | the cell becomes type `s` with the item index as its value; address, style and formula stay |
| CellValues.StoredIndexOfPointAt | eiseXLSX.php:214 | `(int)` of the written index reads it back |
| CellValues.DigitRun | eiseXLSX.php:245 | a maximal run of digits |
| CellValues.NumeralIsNumeric | eiseXLSX.php:245 | a decimal numeral is numeric |
| CellValues.WordIsNotNumeric | eiseXLSX.php:245 | text starting with a letter other than `e` is not numeric |
| CellValues.FormatDataWrite | eiseXLSX.php:1069-1082 | the type is dropped; a `d` value becomes the date serial, any other the text; address, style and formula stay |
| CellValues.ReadHalf | eiseXLSX.php:197-235 | a shared-string target, when there is one, is inside the table |
| CellValues.WriteData | eiseXLSX.php:197-260 | a write never changes the cell's address or style |
| CellValues.TextWriteHasTarget | eiseXLSX.php:228-230 | a non-blank text write of type `s` always has a shared string to update |
| CellValues.WriteTextToEmptyCell | eiseXLSX.php:197-260 | text into an empty cell appends one item holding it, points the cell at it and clears the formula |
| CellValues.ReadBackText | eiseXLSX.php:197-260 | reading after writing text into an empty cell returns that text and changes nothing |
| CellValues.RewriteSharedString | eiseXLSX.php:210-249 | text into a shared-string cell replaces that item in place and returns its old text |
| CellValues.NumericWriteLeavesOrphanItem | eiseXLSX.php:225-253 | numeric text with the default type stores the number but still appends an empty shared string |
| CellValues.NumberWithExplicitType | eiseXLSX.php:231-253 | with type `n` the text is stored in the cell and the table is untouched |
| CellValues.BlankingClearsCell | eiseXLSX.php:217-242 | writing "" clears type and value; a non-string value still appends an empty item |
| CellValues.WriteDate | eiseXLSX.php:238-253 | with type `d` the cell stores the date serial |
| CellValues.ReadChangesNothing | eiseXLSX.php:197-258 | a read fails exactly on a dangling shared-string index, and otherwise changes neither cell nor table |
| CellValues.ReadBackAnyCell | eiseXLSX.php:197-258 | in any cell where a text write succeeds, the next read returns that text |
| CellValues.WriteAt | eiseXLSX.php:210-256 | writing at a location keeps every cell address well formed |
| CellValues.DataSpec | eiseXLSX.php:197-260 | `data` keeps every cell address well formed |
| CellValues.DataReadBack | eiseXLSX.php:197-260 | `data(a, text)` then `data(a)` returns the text and changes nothing |
| CellValues.ReadMissingCell | eiseXLSX.php:203-224 | reading an absent cell returns null and adds no cell |
| CellValues.Data | eiseXLSX.php:197-260 | the sheet, the string table and the result are those of `DataSpec` |
| CellValues.WriteCell | eiseXLSX.php:210-256 | the cell, table and previous value follow `WriteData`; on error the table is untouched |
| CellValues.ReadCell | eiseXLSX.php:210-235 | the read half follows `ReadHalf`; on error the table is untouched |
| CellValues.SharedStrings.Append | eiseXLSX.php:979-994 | returns the old item count and applies `AppendEmpty` |
| CellValues.SharedStrings.Replace | eiseXLSX.php:905-926 | item `index` becomes the new content; counts unchanged |
| Styles.FirstFill | eiseXLSX.php:477-484 | the first fill whose upper-cased `rgb` is the colour, or none |
| Styles.FillPositions | eiseXLSX.php:487 | fills (no attributes) read their index as their position |
| Styles.XfPositions | eiseXLSX.php:514 | a format with attributes reads position 0 (its last attribute's name, cast), one without reads its index |
| Styles.FirstXf | eiseXLSX.php:500-508 | the first format equal to the model except for the fill, or none |
| Styles.AddedAtEnd | eiseXLSX.php:486-516 | a new fill or format lands at the end, and the count attribute follows |
| Styles.FillIndexMeaning | eiseXLSX.php:475-493 | the fill index names a fill of that colour, the first one; an existing fill is reused unchanged; otherwise a solid fill is appended |
| Styles.StyleForMeaning | eiseXLSX.php:497-528 | the error cases, when the style is left alone, that a new style's fill is the one asked for, and that at most one format is appended |
| Styles.FillIdempotent | eiseXLSX.php:463-532 | filling twice with the same colour is filling once |
| Styles.FilledStyleHasColor | eiseXLSX.php:475-528 | after a fill the cell's format points to a fill of that colour |
| Styles.NoColorTargetsFillZero | eiseXLSX.php:491-492 | no colour means fill 0, and an unstyled cell stays unstyled |
| Styles.BadColorChangesNothing | eiseXLSX.php:465 | a malformed colour fails with `BadColor` before anything changes |
| Styles.FillCellIdempotent | eiseXLSX.php:463-532 | `fill(a, c)` twice is `fill(a, c)` once, on sheet and styles |
| Styles.FillThenColor | eiseXLSX.php:546-574 | corrected: after `fill(a, #rrggbb)`, `getFillColor(a)` is `#RRGGBB` |
| Styles.FillThenColorAsWritten | eiseXLSX.php:561-562 | as written, the same query returns the stored `FFRRGGBB`, not `#RRGGBB` |
| Styles.Styles.FindFill | eiseXLSX.php:477-484 | the loop returns `FirstFill` |
| Styles.Styles.FindXf | eiseXLSX.php:500-508 | the loop returns `FirstXf` |
| Styles.Styles.AppendFill | eiseXLSX.php:486-490 | returns the old fill count and appends a solid fill of the colour |
| Styles.Styles.AppendXf | eiseXLSX.php:512-516 | returns the old format count and appends the format |
| Styles.Styles.FillIndexOf | eiseXLSX.php:475-493 | tables and index follow `FillIndex` |
| Styles.Styles.StyleCell | eiseXLSX.php:497-528 | tables and style follow `StyleFor` |
| Styles.Styles.Fill | eiseXLSX.php:463-532 | sheet, tables and result follow `FillSpec` |
| Styles.Styles.GetFillColor | eiseXLSX.php:546-581 | answers `FillColorOf` and changes nothing |
| Workbooks.SheetIdByName | eiseXLSX.php:665-675 | none iff no sheet has the name; otherwise the sheetId of the first sheet that has it |
| Workbooks.SelectSheetSpec | eiseXLSX.php:688-694 | succeeds iff the sheetId is set, with the sheet's part; otherwise `SheetNotFound` |
| Workbooks.FirstSheetWithId | eiseXLSX.php:787-793 | the first sheet entry with the sheetId, or none |
| Workbooks.UpdateApp | eiseXLSX.php:1467-1497 | only the app.xml counts change |
| Workbooks.AppStaysConsistent | eiseXLSX.php:1470-1495 | the sheet count becomes n; the non-sheet titles are preserved; app.xml stays consistent iff n equals the number of titles written |
| Workbooks.RenamedOverrides | eiseXLSX.php:1504-1508 | every override naming the old path names the new one; the others are unchanged |
| Workbooks.MovePartAsWritten | eiseXLSX.php:1500-1510 | `renameFile` as written changes only parts and overrides |
| Workbooks.MovePart | eiseXLSX.php:1500-1510 | corrected `renameFile` changes only parts and overrides |
| Workbooks.MoveToItselfAsWritten | eiseXLSX.php:1500-1502 | as written, renaming a part to its own name deletes it |
| Workbooks.MovePartMoves | eiseXLSX.php:1500-1510 | corrected: the part moves to the new name, the old name is gone, other parts stay, and overrides follow; renaming to itself changes nothing |
| Workbooks.FirstSheetRel | eiseXLSX.php:1403-1405 | the first worksheet relationship with the id, or none |
| Workbooks.AlnumPrefixLength | eiseXLSX.php:1436 | the `[a-z0-9]+` run after the dot: all letters or digits, and maximal |
| Workbooks.RenumberFileName | eiseXLSX.php:1436 | the regex renumbers `prefix<m>.ext` to `prefix<n>.ext` |
| Workbooks.RenumberNumberedName | eiseXLSX.php:1436 | `<m>.ext` becomes `<n>.ext` |
| Workbooks.RenumberDigitsName | eiseXLSX.php:1436 | any digit run before `.ext` becomes n |
| Workbooks.RenumberRelAt | eiseXLSX.php:1434-1438 | renumbering one sheet relationship touches only parts and overrides |
| Workbooks.RenumberRelsFrom | eiseXLSX.php:1434-1439 | the loop touches only parts and overrides |
| Workbooks.RenumberSheetRels | eiseXLSX.php:1430-1441 | renumbering a sheet's relationships touches only parts and overrides |
| Workbooks.Bind | eiseXLSX.php:1427-1428 | the sheetId maps to its new path, which is a part |
| Workbooks.RelinkTarget | eiseXLSX.php:1403-1416 | the sheet's worksheet relationship, when found, takes `rId<i>` and the new target, and its old and new targets are carried on; every other relationship is unchanged; when none is found nothing changes and the previous paths are carried |
| Workbooks.SheetTargets | eiseXLSX.php:1403-1419 | the relationships are those of `RelinkTarget`, and the carried new path is never empty (the `worksheets/sheet<i>.xml` fallback) |
| Workbooks.MoveSheet | eiseXLSX.php:1422-1441 | moving a sheet binds its id to the new path and leaves the sheet list alone |
| Workbooks.RelinkSheet | eiseXLSX.php:1395-1444 | sheet k gets `rId<k+1>` and, on success, its sheetId is bound |
| Workbooks.FixedRelIds | eiseXLSX.php:1447-1460 | only relationship ids change, and only those of the theme, styles, sharedStrings, calcChain and externalLink types |
| Workbooks.FixedRelIdsFollow | eiseXLSX.php:1447-1460 | theme, styles, sharedStrings, calcChain and externalLink get `rId<n>` to `rId<n+4>` |
| Workbooks.RelinkLoopNumbers | eiseXLSX.php:1394-1444 | the loop numbers the sheets from k on |
| Workbooks.RelinkNumbersSheets | eiseXLSX.php:1376-1464 | after `updateWorkbookLinks` sheet j has relationship id `rId<j+1>` and nothing else changes in it |
| Workbooks.RelIdInjective | eiseXLSX.php:1399 | distinct numbers give distinct `rId`s |
| Workbooks.RelinkLoopFixedIds | eiseXLSX.php:1394-1460 | the fixed relationships follow the last sheet number |
| Workbooks.FixedIdsApart | eiseXLSX.php:1399-1458 | the fixed relationship ids never collide with a sheet's id |
| Workbooks.RelinkFixedIds | eiseXLSX.php:1376-1464 | after `updateWorkbookLinks` the fixed ids follow the sheets and collide with none of them |
| Workbooks.RelinkLoopBinds | eiseXLSX.php:1394-1444 | the loop binds the sheetIds from k on |
| Workbooks.RelinkBindsSheets | eiseXLSX.php:1376-1464 | after `updateWorkbookLinks` exactly the listed sheets have paths |
| Workbooks.RenamedInPlaceLost | eiseXLSX.php:1408-1425 | as written, a renumbered sheet whose file already has the new name is deleted (left as null) |
| Workbooks.MoveSheetInPlaceAsWritten | eiseXLSX.php:1422-1425 | as written, moving a sheet onto its own path leaves it null |
| Workbooks.RenamedInPlaceKept | eiseXLSX.php:1408-1425 | corrected, that sheet keeps its content |
| Workbooks.RenameSheetMeaning | eiseXLSX.php:780-795 | fails iff the sheetId is not set; otherwise only names change, app.xml stays consistent, and a unique new name finds the sheet |
| Workbooks.RemoveTargets | eiseXLSX.php:813-816 | unsetting targets only removes parts and never changes one; the only error is a target above the root |
| Workbooks.FirstRelWithId | eiseXLSX.php:830-835 | the first relationship with the id, or none |
| Workbooks.LastOverride | eiseXLSX.php:848-854 | the last override naming the path, or none |
| Workbooks.RemoveAt | eiseXLSX.php:845 | an in-range index removes that element and keeps order; out of range changes nothing |
| Workbooks.Detach | eiseXLSX.php:818-855 | the sheetId's path is forgotten and the parts are untouched |
| Workbooks.UnlinkedDropsEntry | eiseXLSX.php:825-845 | the first entry with the id is removed |
| Workbooks.UnlinkedDropsParts | eiseXLSX.php:809-822 | the sheet, its rels part and its path are gone, and no part is added |
| Workbooks.RemoveSheetDropsEntry | eiseXLSX.php:807-858 | after `removeSheet` the remaining sheets keep their order and are renumbered `rId1`... |
| Workbooks.RemoveUnknownSheetDropsFirstOverride | eiseXLSX.php:848-855 | removing an unknown sheetId keeps the sheets but drops the first override |
| Workbooks.MaxSheetId | eiseXLSX.php:715-719 | at least 1 and at least every sheetId |
| Workbooks.MaxFileIndex | eiseXLSX.php:721-724 | at least 1 and at least every sheet file's `sheet<n>.xml` number |
| Workbooks.MaxRelIndex | eiseXLSX.php:726-727 | at least every sheet's relationship number |
| Workbooks.CloneSheetAppends | eiseXLSX.php:707-768 | an unknown origin fails with nothing changed; on success the old sheets are renumbered, the copy is appended last with a sheetId above all others and its name, and it has a path |
| WorkbookObjects.Workbook.FindSheetByName | eiseXLSX.php:665-675 | the loop returns `SheetIdByName` |
| WorkbookObjects.Workbook.SheetIndex | eiseXLSX.php:787-793 | the loop returns `FirstSheetWithId` |
| WorkbookObjects.Workbook.SelectSheet | eiseXLSX.php:688-694 | the current sheet becomes the selected part, or stays on error |
| WorkbookObjects.Workbook.UpdateAppXML | eiseXLSX.php:1467-1497 | the workbook becomes `UpdateApp` of the old one |
| WorkbookObjects.Workbook.RenameSheet | eiseXLSX.php:780-795 | workbook and error follow `RenameSheetSpec` |
| WorkbookObjects.Workbook.RenameFile | eiseXLSX.php:1500-1510 | the workbook becomes `MovePart` of the old one |
| WorkbookObjects.Workbook.FindSheetRel | eiseXLSX.php:1403-1405 | the loop returns `FirstSheetRel` |
| WorkbookObjects.Workbook.RetargetSheet | eiseXLSX.php:1403-1419 | relationships and carried paths follow `SheetTargets` |
| WorkbookObjects.Workbook.RenumberRelTargets | eiseXLSX.php:1430-1441 | workbook and error follow `RenumberSheetRels` |
| WorkbookObjects.Workbook.RetargetRel | eiseXLSX.php:1434-1438 | workbook and error follow `RenumberRelAt` |
| WorkbookObjects.Workbook.PlaceSheet | eiseXLSX.php:1422-1441 | workbook and error follow `MoveSheet` |
| WorkbookObjects.Workbook.LinkSheet | eiseXLSX.php:1395-1444 | one iteration follows `RelinkSheet` |
| WorkbookObjects.Workbook.FixRelIds | eiseXLSX.php:1447-1460 | the relationships become `FixedRelIds` |
| WorkbookObjects.Workbook.LinkNext | eiseXLSX.php:1395-1444 | one iteration advances the loop function by one sheet |
| WorkbookObjects.Workbook.LinkSheets | eiseXLSX.php:1394-1444 | the loop over the sheets computes the loop function |
| WorkbookObjects.Workbook.UpdateWorkbookLinks | eiseXLSX.php:1376-1464 | workbook and error follow `Relink`, whose properties are `RelinkNumbersSheets`, `RelinkFixedIds` and `RelinkBindsSheets` |
| WorkbookObjects.Workbook.RemoveRelTargets | eiseXLSX.php:813-816 | the parts follow `RemoveTargets` |
| WorkbookObjects.Workbook.RelIndex | eiseXLSX.php:830-835 | the loop returns `FirstRelWithId` |
| WorkbookObjects.Workbook.LastOverrideIndex | eiseXLSX.php:848-854 | the index of the last override naming the path, 0 when none does |
| WorkbookObjects.Workbook.DetachSheet | eiseXLSX.php:818-855 | the workbook becomes `Detach` of the old one |
| WorkbookObjects.Workbook.RemoveSheet | eiseXLSX.php:807-858 | workbook and error follow `RemoveSheetSpec` |
| WorkbookObjects.Workbook.SheetMaxima | eiseXLSX.php:715-729 | the loop returns the three maxima |
| WorkbookObjects.Workbook.AddClone | eiseXLSX.php:731-761 | the workbook follows `Cloned`; the copy is a fresh worksheet with the origin's content and the other worksheets are untouched |
| WorkbookObjects.Workbook.CopyWorksheet | eiseXLSX.php:738 | a fresh worksheet under a new handle holds the same content |
| WorkbookObjects.Workbook.StoreCopy | eiseXLSX.php:738-761 | the workbook follows `AddCopy` |
| WorkbookObjects.Workbook.AppendSheet | eiseXLSX.php:745-761 | a sheet entry, a worksheet relationship and an override are appended |
| WorkbookObjects.Workbook.CloneSheet | eiseXLSX.php:707-768 | the workbook follows `CloneSheetSpec`; the copy is a fresh worksheet with the origin's content |

## Left out

- Loading and saving the package (the constructor's unzip, `Output`, the
  file-system helpers) and XML parsing and serialisation are not modelled.
  The objects' constructors take the loaded state as parameters.
- `getDataValidationList`, `getDataByRange`, `getRowCount`, `getRow` and
  `getThemeColor` are outside this model.
- CellValues.ReadHalf: a value in a non-string cell is returned as the
  stored value with the cell's style (`Stored`). The date rendering of
  `formatDataRead` is not modelled; it needs `date()` on floating-point
  days.
- Styles.Styles.GetFillColor: a theme colour is answered as the theme
  index (`ThemeColor`), not resolved through the theme part. This method
  answers in the corrected W3C form (see Findings).
- DateSerial.ConvertDate: the time of day is kept as whole seconds beside
  the day count, not as the floating-point fraction of a day that the
  library adds.
- `htmlspecialchars` and `strip_tags` are not modelled. Shared-string items
  are sequences of text nodes, and their plain text is the concatenation of
  the texts.
- app.xml keeps only the counts `updateAppXML` maintains, not the title
  strings themselves.
- PHP references are not modelled. The library keeps `arrSheets` as
  references into the part array; the model keeps the sheetId-to-path map
  and reaches a worksheet through its part's handle.
- PHP loose comparison is modelled only where it decides a branch: `(int)`
  reads the leading digits, and an integer against a non-numeric string
  compares as against 0. Numeric strings that differ only in form (`"01"`
  and `"1"`) are not identified.
- Workbooks.RelinkSheet: a relationships part that holds something other
  than relationships, or a sheet path that holds something other than a
  worksheet, is reported as `BrokenReference`. The library would call
  methods on it.
- CellValues.Data: refuses an address in column 0, such as `R5C0`, with
  `InvalidAddress` and changes nothing. The library goes on with column 0
  and writes a cell addressed `5`. A sheet in this model holds only cell
  addresses the corrected parse `Address.CheckedCellAddress` accepts (see
  Findings), so that every address it renumbers or relocates reads back.
- CellValues.DataSpec: the same refusal of column 0 as `CellValues.Data`.
- Styles.Styles.Fill: refuses an address in column 0 with `InvalidAddress`,
  as `Styles.FillSpec` does. The library goes on with column 0.
- Styles.Styles.GetFillColor: also refuses an address in column 0, as
  `Styles.FillColorOf` does.
- Worksheets.LocateKeys: needs an address the corrected parse accepts.
  `shiftDownMergedCells` (`Worksheets.MergeCorners`), the renumbering of
  cells and `cloneRow` read stored addresses with the corrected parse too,
  so a stored address or merged range in column 0 is outside this model.
- The workbook object uses the corrected `renameFile`, `getPathByRelTarget`
  and `getRelFilePath` (the functions are parameterised; the as-written
  versions are proved about in the Findings lemmas).

## Findings

| source | as written | input that shows it | evidently intended | confidence | as-written member | corrected member |
|---|---|---|---|---|---|---|
| eiseXLSX.php:880-881 | `..` unsets key `count-1`, but after a `..` followed by a push the last key is `count`, so a second `..` finds no key and throws | target `../a/../b` from `/xl/worksheets/_rels/sheet1.xml.rels` | resolves to `/xl/b` | not executed | Paths.UpTwiceFromRelsPart | Paths.UpTwiceAfterPushIntended |
| eiseXLSX.php:897 | `str_replace(dirname(p), "", p)` removes every occurrence of the directory, not just the prefix | `/d/d1.xml` gives `/d/_rels1.xml.rels` | `/d/_rels/d1.xml.rels` | not executed | Paths.RelFilePathRepeatedDirectory | Paths.RelFilePathOfChild |
| eiseXLSX.php:1290-1291 | the R1C1 pattern accepts column 0, whose A1 rendering has no letters | `R5C0` gives column 0 and A1 text `5`, which `cellAddress` refuses | reject column 0 | not executed | Address.ColumnZeroLosesA1Form | Address.CheckedCellAddressReparses |
| eiseXLSX.php:561-562 | an `rgb` fill colour is returned as stored ARGB, though the function promises W3C `#RRGGBB` | `fill(a, "#00CC99")` then `getFillColor(a)` gives `FF00CC99` | `#00CC99` | not executed | Styles.FillThenColorAsWritten | Styles.FillThenColor |
| eiseXLSX.php:1198-1212 | `$insertBeforeElement = &$element` binds the placement to the loop variable, and for rows the renumbering `foreach` rebinds it to every row in turn | rows 2 and 3 with row 1 inserted (as `data("A1", "x")` does through `addRow(1)`) end as rows 3, 1, 4 | the new row goes first: rows 1, 3, 4 | not executed | Placement.RowBelowFirstGoesBeforeLast | Placement.RowInsertOrder |
| eiseXLSX.php:1500-1502 | `renameFile(p, p)` copies the part onto itself and then unsets it | one sheet with id `rId2` whose target is already `worksheets/sheet1.xml` | the sheet keeps its content | not executed | Workbooks.RenamedInPlaceLost | Workbooks.RenamedInPlaceKept |
