/**
 * One worksheet's `<sheetData>` (rows of cells) and `<mergeCells>`, and the
 * library's edits of them: finding a row or a cell, inserting a row (which
 * renumbers every row at or below it), inserting a cell, moving merged ranges
 * down past an inserted row, and cloning a row.
 *
 * The worksheet is a `Worksheet` object whose fields the edits update in
 * place; each edit is specified by a function on the values of those fields.
 */
module Worksheets {
  import opened Common
  import opened Address
  import opened Placement
  import opened DateSerial

  // ---------------------------------------------------------------------
  // Cells and rows
  // ---------------------------------------------------------------------

  /** What a `<v>` holds: text, or a date/time serial the library computed. */
  datatype Value = Text(text: string) | Date(serial: Serial)

  /**
   * A `<c>` element: address `r`, style index `s`, type `t`, value `<v>`,
   * formula `<f>`. Absent attributes and children are `None`.
   */
  datatype Cell = Cell(r: string, s: Option<string>, t: Option<string>, v: Option<Value>, f: Option<string>)

  /** A `<row>` element: its number and its cells in document order. */
  datatype Row = Row(r: nat, cells: seq<Cell>)

  /** The empty cell `addCell` creates. */
  function NewCell(address: string): Cell
  {
    Cell(address, None, None, None, None)
  }

  /** A cell whose address `cellAddress` reads, with a column of at least 1. */
  predicate CellValid(c: Cell)
  {
    CheckedCellAddress(c.r).Ok?
  }

  predicate CellsValid(cells: seq<Cell>)
  {
    forall j :: 0 <= j < |cells| ==> CellValid(cells[j])
  }

  predicate RowsValid(rows: seq<Row>)
  {
    forall i :: 0 <= i < |rows| ==> CellsValid(rows[i].cells)
  }

  /** `getElementPosition` of a cell: its column. */
  function Column(c: Cell): nat
    requires CellValid(c)
  {
    CheckedCellAddress(c.r).value.x
  }

  /** The row number a cell's address names. */
  function AddressRow(c: Cell): nat
    requires CellValid(c)
  {
    CheckedCellAddress(c.r).value.y
  }

  function Columns(cells: seq<Cell>): (ps: seq<int>)
    requires CellsValid(cells)
    ensures |ps| == |cells|
    ensures forall j :: 0 <= j < |cells| ==> ps[j] == Column(cells[j])
  {
    seq(|cells|, j requires 0 <= j < |cells| => Column(cells[j]))
  }

  /** `getElementPosition` of a row: its number. */
  function RowNumbers(rows: seq<Row>): (ps: seq<int>)
    ensures |ps| == |rows|
    ensures forall i :: 0 <= i < |rows| ==> ps[i] == rows[i].r
  {
    seq(|rows|, i requires 0 <= i < |rows| => rows[i].r)
  }

  /** Every cell of the row is addressed on that row. */
  predicate OnItsRow(row: Row)
    requires CellsValid(row.cells)
  {
    forall j :: 0 <= j < |row.cells| ==> AddressRow(row.cells[j]) == row.r
  }

  predicate AllOnTheirRows(rows: seq<Row>)
    requires RowsValid(rows)
  {
    forall i :: 0 <= i < |rows| ==> OnItsRow(rows[i])
  }

  // ---------------------------------------------------------------------
  // Finding rows and cells
  // ---------------------------------------------------------------------

  /** `locateRow`: the first row numbered `y`. */
  function RowIndexOf(rows: seq<Row>, y: nat): (i: Option<nat>)
    ensures i.Some? ==> i.value < |rows| && rows[i.value].r == y
    ensures i.Some? ==> forall k :: 0 <= k < i.value ==> rows[k].r != y
    ensures i.None? ==> forall k :: 0 <= k < |rows| ==> rows[k].r != y
  {
    if |rows| == 0 then None
    else if rows[0].r == y then Some(0)
    else
      match RowIndexOf(rows[1..], y)
      case None => None
      case Some(j) => Some(j + 1)
  }

  /** The first cell whose address is literally one of the two texts. */
  function CellIndexOf(cells: seq<Cell>, a1Key: string, r1c1Key: string): (j: Option<nat>)
    ensures j.Some? ==> j.value < |cells| && cells[j.value].r in {a1Key, r1c1Key}
    ensures j.Some? ==> forall k :: 0 <= k < j.value ==> cells[k].r !in {a1Key, r1c1Key}
    ensures j.None? ==> forall k :: 0 <= k < |cells| ==> cells[k].r !in {a1Key, r1c1Key}
  {
    if |cells| == 0 then None
    else if cells[0].r == a1Key || cells[0].r == r1c1Key then Some(0)
    else
      match CellIndexOf(cells[1..], a1Key, r1c1Key)
      case None => None
      case Some(j) => Some(j + 1)
  }

  /** `locateCell`: a matching cell of the first row numbered `y`; later rows numbered `y` are not searched. */
  function CellLocation(rows: seq<Row>, y: nat, a1Key: string, r1c1Key: string): (loc: Option<(nat, nat)>)
    ensures loc.Some? ==> loc.value.0 < |rows| && loc.value.1 < |rows[loc.value.0].cells|
    ensures loc.Some? ==> rows[loc.value.0].cells[loc.value.1].r in {a1Key, r1c1Key}
  {
    match RowIndexOf(rows, y)
    case None => None
    case Some(i) =>
      match CellIndexOf(rows[i].cells, a1Key, r1c1Key)
      case None => None
      case Some(j) => Some((i, j))
  }

  /**
   * The two texts `locateCell` looks for, built from an address the way the
   * library builds them: the column letters followed by the row digits as
   * written, and `R<row digits>C<column>` with the column digits as written
   * when the address was given in `R1C1` notation.
   */
  function LocateKeys(s: string): (keys: (string, string))
    requires CheckedCellAddress(s).Ok?
    ensures CellValid(NewCell(keys.0))
    ensures Column(NewCell(keys.0)) == CheckedCellAddress(s).value.x
    ensures AddressRow(NewCell(keys.0)) == CheckedCellAddress(s).value.y
  {
    var c := CheckedCellAddress(s).value;
    LetterIndexOfColumnLetters(c.x);
    match MatchR1C1(s)
    case Some(m) =>
      MatchLettersDigits(ColumnLetters(c.x), m.0);
      (ColumnLetters(c.x) + m.0, "R" + m.0 + "C" + m.1)
    case None =>
      var m := MatchA1(s).value;
      MatchLettersDigits(ColumnLetters(c.x), m.1);
      (ColumnLetters(c.x) + m.1, "R" + m.1 + "C" + NatToString(c.x))
  }

  /** For the addresses the library itself writes, the keys are exactly its two renderings. */
  lemma LocateKeysOfRenderings(x: nat, y: nat)
    requires x >= 1
    ensures CheckedCellAddress(A1Text(x, y)).Ok? && CheckedCellAddress(R1C1Text(x, y)).Ok?
    ensures LocateKeys(A1Text(x, y)) == (A1Text(x, y), R1C1Text(x, y))
    ensures LocateKeys(R1C1Text(x, y)) == (A1Text(x, y), R1C1Text(x, y))
  {
    CellAddressOfA1Text(x, y);
    CellAddressOfR1C1Text(x, y);
    MatchLettersDigits(ColumnLetters(x), NatToString(y));
    MatchRowCol(NatToString(y), NatToString(x));
  }

  // ---------------------------------------------------------------------
  // Inserting rows and cells
  // ---------------------------------------------------------------------

  /**
   * A cell's address moved to row `y`, its column and notation kept: `R1C1`
   * text keeps its column digits as written, anything else becomes `A1` text.
   */
  function Relocate(c: Cell, y: nat): (d: Cell)
    requires CellValid(c)
    ensures CellValid(d) && Column(d) == Column(c) && AddressRow(d) == y
    ensures d == c.(r := d.r)
  {
    match MatchR1C1(c.r)
    case Some(m) =>
      MatchRowCol(NatToString(y), m.1);
      DigitsOfNatToString(y);
      c.(r := "R" + NatToString(y) + "C" + m.1)
    case None =>
      CellAddressOfA1Text(Column(c), y);
      c.(r := A1Text(Column(c), y))
  }

  function RelocateAll(cells: seq<Cell>, y: nat): (ds: seq<Cell>)
    requires CellsValid(cells)
    ensures |ds| == |cells| && CellsValid(ds)
    ensures forall j :: 0 <= j < |cells| ==> ds[j] == Relocate(cells[j], y)
  {
    seq(|cells|, j requires 0 <= j < |cells| => Relocate(cells[j], y))
  }

  /** A row as inserting a row numbered `pos` leaves it: at or below `pos` it moves down one, cells and all. */
  function ShiftRow(row: Row, pos: int): (moved: Row)
    requires CellsValid(row.cells)
    ensures moved.r == Bump(row.r, pos) && |moved.cells| == |row.cells| && CellsValid(moved.cells)
  {
    if row.r >= pos then Row(row.r + 1, RelocateAll(row.cells, row.r + 1)) else row
  }

  function ShiftRows(rows: seq<Row>, pos: int): (moved: seq<Row>)
    requires RowsValid(rows)
    ensures |moved| == |rows| && RowsValid(moved)
    ensures forall i :: 0 <= i < |rows| ==> moved[i] == ShiftRow(rows[i], pos)
  {
    seq(|rows|, i requires 0 <= i < |rows| => ShiftRow(rows[i], pos))
  }

  /**
   * `insertElementByPosition` of a row: placed by the old numbers as rows are
   * (`RowInsertIndex`, before the last row when numbered below the first),
   * then the rows at or below it renumbered.
   */
  function InsertRowSpec(rows: seq<Row>, row: Row): (result: seq<Row>)
    requires RowsValid(rows) && CellsValid(row.cells)
    ensures RowsValid(result)
  {
    Insert(ShiftRows(rows, row.r), RowInsertIndex(RowNumbers(rows), row.r), row)
  }

  /** `insertElementByPosition` of a cell: placed by column, nothing renumbered. */
  function InsertCellSpec(cells: seq<Cell>, cell: Cell): (result: seq<Cell>)
    requires CellsValid(cells) && CellValid(cell)
    ensures CellsValid(result)
  {
    var k := InsertIndex(Columns(cells), Column(cell));
    ColumnsOfInsert(cells, k, cell);
    Insert(cells, k, cell)
  }

  /** The row numbers after an insertion are the old ones bumped, with the new one placed among them. */
  lemma RowNumbersAfterInsert(rows: seq<Row>, row: Row)
    requires RowsValid(rows) && CellsValid(row.cells)
    ensures RowNumbers(InsertRowSpec(rows, row))
         == Insert(Shifted(RowNumbers(rows), row.r), RowInsertIndex(RowNumbers(rows), row.r), row.r)
  {
  }

  /**
   * Rows in increasing order stay so after an insertion exactly when there
   * were none, the new number is past the first row's, or it is below the
   * only row's.
   */
  lemma RowOrderAfterInsert(rows: seq<Row>, row: Row)
    requires RowsValid(rows) && CellsValid(row.cells)
    requires Increasing(RowNumbers(rows))
    ensures Increasing(RowNumbers(InsertRowSpec(rows, row)))
        <==> (|rows| == 0 || row.r > rows[0].r || (|rows| == 1 && row.r < rows[0].r))
  {
    RowNumbersAfterInsert(rows, row);
    RowInsertOrderAsWritten(RowNumbers(rows), row.r);
  }

  /** Inserting a row keeps every cell addressed on the row that holds it. */
  lemma InsertKeepsCellsOnTheirRows(rows: seq<Row>, row: Row)
    requires RowsValid(rows) && CellsValid(row.cells)
    requires AllOnTheirRows(rows) && OnItsRow(row)
    ensures AllOnTheirRows(InsertRowSpec(rows, row))
  {
    var result := InsertRowSpec(rows, row);
    var k := RowInsertIndex(RowNumbers(rows), row.r);
    forall i | 0 <= i < |result|
      ensures OnItsRow(result[i])
    {
      if i != k {
        var old_i := if i < k then i else i - 1;
        assert result[i] == ShiftRow(rows[old_i], row.r);
        assert OnItsRow(rows[old_i]);
      }
    }
  }

  /** A row added at a number no row had is the one `locateRow` then finds, at the index it was placed. */
  lemma AddedRowIsFound(rows: seq<Row>, row: Row)
    requires RowsValid(rows) && CellsValid(row.cells)
    requires RowIndexOf(rows, row.r).None?
    ensures RowIndexOf(InsertRowSpec(rows, row), row.r) == Some(RowInsertIndex(RowNumbers(rows), row.r))
  {
    var result := InsertRowSpec(rows, row);
    var ps := RowNumbers(rows);
    var k := RowInsertIndex(ps, row.r);
    var shifted := ShiftRows(rows, row.r);
    forall i | 0 <= i < k
      ensures result[i].r != row.r
    {
      assert ps[i] == rows[i].r && rows[i].r != row.r;
      assert result[i] == shifted[i];
      assert shifted[i].r == Bump(rows[i].r, row.r);
    }
    assert result[k] == row;
    FirstRowFound(result, row.r, k);
  }

  /** `locateRow` finds the first row with the number. */
  lemma FirstRowFound(rows: seq<Row>, y: nat, k: nat)
    requires k < |rows| && rows[k].r == y
    requires forall i :: 0 <= i < k ==> rows[i].r != y
    ensures RowIndexOf(rows, y) == Some(k)
  {
  }

  /** Cells in increasing column order stay so when a cell goes in at a column none of them has. */
  lemma CellOrderAfterInsert(cells: seq<Cell>, cell: Cell)
    requires CellsValid(cells) && CellValid(cell)
    requires Increasing(Columns(cells))
    requires forall j :: 0 <= j < |cells| ==> Column(cells[j]) != Column(cell)
    ensures Increasing(Columns(InsertCellSpec(cells, cell)))
  {
    var k := InsertIndex(Columns(cells), Column(cell));
    ColumnsOfInsert(cells, k, cell);
    CellInsertOrder(Columns(cells), Column(cell));
  }

  lemma ColumnsOfInsert(cells: seq<Cell>, k: nat, cell: Cell)
    requires CellsValid(cells) && CellValid(cell) && k <= |cells|
    ensures CellsValid(Insert(cells, k, cell))
    ensures Columns(Insert(cells, k, cell)) == Insert(Columns(cells), k, Column(cell))
  {
    var r := Insert(cells, k, cell);
    assert CellsValid(r) by {
      forall i | 0 <= i < |r| ensures CellValid(r[i]) {
        if i > k { assert r[i] == cells[i - 1]; }
      }
    }
    var lhs := Columns(r);
    var rhs := Insert(Columns(cells), k, Column(cell));
    forall i | 0 <= i < |r| ensures lhs[i] == rhs[i] {
      if i > k { assert r[i] == cells[i - 1]; }
    }
  }

  /** A cell added under texts no cell had is the one those texts then find. */
  lemma AddedCellIsFound(cells: seq<Cell>, cell: Cell, r1c1Key: string)
    requires CellsValid(cells) && CellValid(cell)
    requires CellIndexOf(cells, cell.r, r1c1Key).None?
    ensures CellIndexOf(InsertCellSpec(cells, cell), cell.r, r1c1Key)
         == Some(InsertIndex(Columns(cells), Column(cell)))
  {
  }

  // ---------------------------------------------------------------------
  // Merged ranges
  // ---------------------------------------------------------------------

  /** The two corners of a `mergeCell` reference, as `explode(":")` and `cellAddress` read them. */
  function MergeCorners(ref: string): Result<(CellRef, CellRef)>
  {
    var parts := Split(ref, ':');
    var cell2 := if |parts| > 1 then parts[1] else "";
    match CheckedCellAddress(parts[0])
    case Err(e) => Err(e)
    case Ok(a) =>
      match CheckedCellAddress(cell2)
      case Err(e) => Err(e)
      case Ok(b) => Ok((a, b))
  }

  /**
   * One merged range with corners `a` and `b` against a row inserted at
   * `yStart`: a range crossing it is refused; one wholly at or below it moves
   * down one row; when a row is cloned from `yOrigin`, a range lying on that
   * row alone gets a copy on the new row.
   */
  function ShiftCorners(ref: string, a: CellRef, b: CellRef, yStart: nat, yOrigin: Option<nat>): Result<(string, Option<string>)>
  {
    if Max(a.y, b.y) >= yStart && Min(a.y, b.y) < yStart then Err(MergeConflict(ref))
    else
      var moved := if Min(a.y, b.y) >= yStart then RangeText(a.x, a.y + 1, b.x, b.y + 1) else ref;
      var copy := if yOrigin == Some(a.y) && a.y == b.y then Some(RangeText(a.x, yStart, b.x, yStart)) else None;
      Ok((moved, copy))
  }

  /** One step of `shiftDownMergedCells`: an unreadable corner fails it. */
  function ShiftMerge(ref: string, yStart: nat, yOrigin: Option<nat>): Result<(string, Option<string>)>
  {
    match MergeCorners(ref)
    case Err(e) => Err(e)
    case Ok(corners) => ShiftCorners(ref, corners.0, corners.1, yStart, yOrigin)
  }

  /**
   * What one step does to a range: it fails exactly on a range crossing the
   * inserted row; it moves a range at or below that row down one row and
   * leaves one above it as it was; it copies a range lying on the cloned row
   * alone onto the new row.
   */
  lemma ShiftCornersMeaning(ref: string, a: CellRef, b: CellRef, yStart: nat, yOrigin: Option<nat>)
    ensures var step := ShiftCorners(ref, a, b, yStart, yOrigin);
      && (step.Err? <==> Max(a.y, b.y) >= yStart && Min(a.y, b.y) < yStart)
      && (step.Err? ==> step.error == MergeConflict(ref))
      && (step.Ok? && Min(a.y, b.y) < yStart ==> step.value.0 == ref)
      && (step.Ok? && Min(a.y, b.y) >= yStart ==> step.value.0 == RangeText(a.x, a.y + 1, b.x, b.y + 1))
      && (step.Ok? ==> (step.value.1.Some? <==> yOrigin == Some(a.y) && a.y == b.y))
      && (step.Ok? && step.value.1.Some? ==> step.value.1.value == RangeText(a.x, yStart, b.x, yStart))
  {
  }

  /** A range moved down covers the same columns, one row lower. */
  lemma MovedRangeArea(a: CellRef, b: CellRef)
    requires a.x >= 1 && b.x >= 1
    ensures RangeArea(RangeText(a.x, a.y + 1, b.x, b.y + 1))
         == Ok(Area(Min(a.x, b.x), Max(a.x, b.x), Min(a.y, b.y) + 1, Max(a.y, b.y) + 1))
  {
    var y1, y2 := a.y + 1, b.y + 1;
    RangeAreaOfCorners(a.x, y1, b.x, y2);
    MinMaxSucc(a.y, b.y);
    assert Area(Min(a.x, b.x), Max(a.x, b.x), Min(y1, y2), Max(y1, y2))
        == Area(Min(a.x, b.x), Max(a.x, b.x), Min(a.y, b.y) + 1, Max(a.y, b.y) + 1);
  }

  lemma MinMaxSucc(p: nat, q: nat)
    ensures Min(p + 1, q + 1) == Min(p, q) + 1 && Max(p + 1, q + 1) == Max(p, q) + 1
  {
  }

  /** The copy of a one-row range covers the same columns on the new row. */
  lemma CopiedRangeArea(a: CellRef, b: CellRef, y: nat)
    requires a.x >= 1 && b.x >= 1
    ensures RangeArea(RangeText(a.x, y, b.x, y)) == Ok(Area(Min(a.x, b.x), Max(a.x, b.x), y, y))
  {
    RangeAreaOfCorners(a.x, y, b.x, y);
  }

  /** The corners `MergeCorners` reads are cells with a column. */
  lemma MergeCornersColumns(ref: string)
    requires MergeCorners(ref).Ok?
    ensures MergeCorners(ref).value.0.x >= 1 && MergeCorners(ref).value.1.x >= 1
  {
  }

  /** The step of every reference, in order. */
  function MergeSteps(refs: seq<string>, yStart: nat, yOrigin: Option<nat>): (steps: seq<Result<(string, Option<string>)>>)
    ensures |steps| == |refs|
  {
    if |refs| == 0 then [] else [ShiftMerge(refs[0], yStart, yOrigin)] + MergeSteps(refs[1..], yStart, yOrigin)
  }

  lemma {:induction false} MergeStepAt(refs: seq<string>, yStart: nat, yOrigin: Option<nat>, i: nat)
    requires i < |refs|
    ensures MergeSteps(refs, yStart, yOrigin)[i] == ShiftMerge(refs[i], yStart, yOrigin)
  {
    if i > 0 {
      MergeStepAt(refs[1..], yStart, yOrigin, i - 1);
    }
  }

  /** The references after the scan, the copies it collected, and the error that stopped it. */
  datatype MergeShift = MergeShift(refs: seq<string>, added: seq<string>, error: Option<Error>)

  /**
   * The scan over the references from index `i` on, given each one's step:
   * each is rewritten in place in turn until a step fails.
   */
  function ScanFrom(refs: seq<string>, steps: seq<Result<(string, Option<string>)>>, i: nat): (m: MergeShift)
    requires |steps| == |refs| && i <= |refs|
    ensures |m.refs| == |refs|
    decreases |refs| - i
  {
    if i == |refs| then MergeShift(refs, [], None)
    else
      match steps[i]
      case Err(e) => MergeShift(refs, [], Some(e))
      case Ok(step) =>
        var rest := ScanFrom(refs[i := step.0], steps, i + 1);
        MergeShift(rest.refs, (if step.1.Some? then [step.1.value] else []) + rest.added, rest.error)
  }

  /** The scan of `shiftDownMergedCells`. */
  function ShiftMerges(refs: seq<string>, yStart: nat, yOrigin: Option<nat>): (m: MergeShift)
    ensures |m.refs| == |refs|
  {
    ScanFrom(refs, MergeSteps(refs, yStart, yOrigin), 0)
  }

  /**
   * The scan succeeds iff every step does, and then every reference is its
   * step's rewrite and the copies are those the steps made; when it fails,
   * the references before the failing one are rewritten and the rest are
   * untouched.
   */
  lemma {:induction false} ScanMeaning(refs: seq<string>, steps: seq<Result<(string, Option<string>)>>, i: nat)
    requires |steps| == |refs| && i <= |refs|
    ensures var m := ScanFrom(refs, steps, i);
      && (forall j :: 0 <= j < i ==> m.refs[j] == refs[j])
      && (m.error.None? <==> forall j :: i <= j < |refs| ==> steps[j].Ok?)
      && (m.error.None? ==> forall j :: i <= j < |refs| ==> m.refs[j] == steps[j].value.0)
      && (m.error.None? ==> forall j :: i <= j < |refs| && steps[j].value.1.Some? ==> steps[j].value.1.value in m.added)
      && (m.error.None? ==> forall c :: c in m.added ==> exists j :: i <= j < |refs| && steps[j].value.1 == Some(c))
      && (m.error.Some? ==> exists k :: i <= k < |refs| && steps[k] == Err(m.error.value) && FailsAt(refs, steps, m.refs, i, k))
    decreases |refs| - i
  {
    if i < |refs| {
      var m := ScanFrom(refs, steps, i);
      match steps[i]
      case Err(e) =>
        assert FailsAt(refs, steps, m.refs, i, i);
      case Ok(step) =>
        var refs1 := refs[i := step.0];
        ScanMeaning(refs1, steps, i + 1);
        var rest := ScanFrom(refs1, steps, i + 1);
        var first := if step.1.Some? then [step.1.value] else [];
        assert m.refs == rest.refs && m.added == first + rest.added;
        if m.error.Some? {
          var k :| i + 1 <= k < |refs| && steps[k] == Err(m.error.value) && FailsAt(refs1, steps, rest.refs, i + 1, k);
          assert FailsAt(refs, steps, m.refs, i, k);
        }
    }
  }

  /**
   * Of the references from `i` on, those before `k` are their steps'
   * rewrites and those from `k` on are untouched.
   */
  predicate FailsAt(refs: seq<string>, steps: seq<Result<(string, Option<string>)>>, result: seq<string>, i: nat, k: nat)
    requires |steps| == |refs| == |result| && i <= k < |refs|
  {
    && (forall j :: i <= j < k ==> steps[j].Ok? && result[j] == steps[j].value.0)
    && (forall j :: k <= j < |refs| ==> result[j] == refs[j])
  }

  // ---------------------------------------------------------------------
  // The worksheet as a value, and the edits that combine the steps above
  // ---------------------------------------------------------------------

  /** The parts of a worksheet the edits touch: the rows, the merged ranges and their `count` attribute. */
  datatype SheetData = SheetData(rows: seq<Row>, merges: seq<string>, mergeCount: int)

  /**
   * `shiftDownMergedCells`: nothing to do without merged ranges; a failing
   * range ends the scan with the earlier ranges already rewritten and no copy
   * added; otherwise the copies are appended and counted.
   */
  function ShiftDown(sd: SheetData, yStart: nat, yOrigin: Option<nat>): (result: (SheetData, Option<Error>))
    ensures result.0.rows == sd.rows
  {
    ShiftDownBy(sd, MergeSteps(sd.merges, yStart, yOrigin))
  }

  /** The same, given each range's step. */
  function ShiftDownBy(sd: SheetData, steps: seq<Result<(string, Option<string>)>>): (result: (SheetData, Option<Error>))
    requires |steps| == |sd.merges|
    ensures result.0.rows == sd.rows
  {
    if |sd.merges| == 0 then (sd, None)
    else
      var m := ScanFrom(sd.merges, steps, 0);
      if m.error.Some? then (sd.(merges := m.refs), m.error)
      else (sd.(merges := m.refs + m.added, mergeCount := sd.mergeCount + |m.added|), None)
  }

  /** `addRow`: the merged ranges move down, then the empty row numbered `y` is inserted. */
  function AddRowSpec(sd: SheetData, y: nat): (result: (SheetData, Option<Error>))
    requires RowsValid(sd.rows)
    ensures RowsValid(result.0.rows)
  {
    var (sd1, err) := ShiftDown(sd, y, None);
    if err.Some? then (sd1, err)
    else (sd1.(rows := InsertRowSpec(sd1.rows, Row(y, []))), None)
  }

  /**
   * `addCell`: the empty cell `address` goes into the first row numbered `y`,
   * by column; when there is no such row, one is added first and the cell
   * goes into it.
   */
  function AddCellSpec(sd: SheetData, address: string, y: nat): (result: (SheetData, Option<Error>))
    requires RowsValid(sd.rows) && CellValid(NewCell(address))
    ensures RowsValid(result.0.rows)
  {
    var i :=
      match RowIndexOf(sd.rows, y)
      case Some(i) => i
      case None => RowInsertIndex(RowNumbers(sd.rows), y);
    var (sd1, err) :=
      match RowIndexOf(sd.rows, y)
      case Some(_) => (sd, None)
      case None => AddRowSpec(sd, y);
    if err.Some? then (sd1, err)
    else
      assert i < |sd1.rows|;
      (sd1.(rows := sd1.rows[i := Row(sd1.rows[i].r, InsertCellSpec(sd1.rows[i].cells, NewCell(address)))]), None)
  }

  /**
   * Where `addCell` puts the new cell: in the first row numbered `y` at its
   * column's placement, or alone in the row it adds at that number's
   * placement.
   */
  function AddedAt(sd: SheetData, address: string, y: nat): (nat, nat)
    requires RowsValid(sd.rows) && CellValid(NewCell(address))
  {
    match RowIndexOf(sd.rows, y)
    case Some(i) => (i, InsertIndex(Columns(sd.rows[i].cells), Column(NewCell(address))))
    case None => (RowInsertIndex(RowNumbers(sd.rows), y), 0)
  }

  /**
   * A cell `locateCell` did not find is, once `addCell` has added it, the
   * cell `locateCell` finds, at the place `addCell` put it.
   */
  lemma AddedCellLocated(sd: SheetData, a1Key: string, r1c1Key: string, y: nat)
    requires RowsValid(sd.rows) && CellValid(NewCell(a1Key))
    requires CellLocation(sd.rows, y, a1Key, r1c1Key).None?
    requires AddCellSpec(sd, a1Key, y).1.None?
    ensures var rows := AddCellSpec(sd, a1Key, y).0.rows;
      var (i, j) := AddedAt(sd, a1Key, y);
      && CellLocation(rows, y, a1Key, r1c1Key) == Some((i, j))
      && rows[i].cells[j] == NewCell(a1Key)
  {
    var cell := NewCell(a1Key);
    var sd2 := AddCellSpec(sd, a1Key, y).0;
    var (i, j) := AddedAt(sd, a1Key, y);
    var rows1 := if RowIndexOf(sd.rows, y).Some? then sd.rows else AddRowSpec(sd, y).0.rows;
    if RowIndexOf(sd.rows, y).None? {
      assert ShiftDown(sd, y, None).0.rows == sd.rows;
      AddedRowIsFound(sd.rows, Row(y, []));
      assert rows1 == InsertRowSpec(sd.rows, Row(y, []));
      assert rows1[i] == Row(y, []);
    }
    assert RowIndexOf(rows1, y) == Some(i);
    assert sd2.rows == rows1[i := Row(rows1[i].r, InsertCellSpec(rows1[i].cells, cell))];
    SameNumbersSameRow(rows1, sd2.rows, y);
    AddedCellIsFound(rows1[i].cells, cell, r1c1Key);
  }

  /** A cell of a cloned row: type and value dropped, style and formula kept, address moved to row `y`. */
  function CloneCell(c: Cell, y: nat): (d: Cell)
    requires CellValid(c)
    ensures CellValid(d) && Column(d) == Column(c) && AddressRow(d) == y
    ensures d.s == c.s && d.f == c.f && d.t.None? && d.v.None?
  {
    Relocate(c.(t := None, v := None), y)
  }

  function CloneCells(cells: seq<Cell>, y: nat): (ds: seq<Cell>)
    requires CellsValid(cells)
    ensures |ds| == |cells| && CellsValid(ds)
    ensures forall j :: 0 <= j < |cells| ==> ds[j] == CloneCell(cells[j], y)
  {
    seq(|cells|, j requires 0 <= j < |cells| => CloneCell(cells[j], y))
  }

  /**
   * `cloneRow`: no source row gives nothing; otherwise the copy, numbered
   * `yDest`, is inserted (renumbering the rows at or below it) and then the
   * merged ranges move down, with copies of those on the source row. A merged
   * range in the way fails the call after the row is in.
   */
  function CloneRowSpec(sd: SheetData, ySrc: nat, yDest: nat): (result: (SheetData, Result<Option<Row>>))
    requires RowsValid(sd.rows)
    ensures RowsValid(result.0.rows)
  {
    match RowIndexOf(sd.rows, ySrc)
    case None => (sd, Ok(None))
    case Some(i) =>
      var copy := Row(yDest, CloneCells(sd.rows[i].cells, yDest));
      var sd1 := sd.(rows := InsertRowSpec(sd.rows, copy));
      var (sd2, err) := ShiftDown(sd1, yDest, Some(ySrc));
      (sd2, if err.Some? then Err(err.value) else Ok(Some(copy)))
  }

  /**
   * The clone has the source row's cells, one for one and in order, each in
   * the same column with the same style and formula, no value and no type,
   * all addressed on the new row; and it is in the sheet at the placement of
   * its number.
   */
  lemma CloneRowContents(sd: SheetData, ySrc: nat, yDest: nat)
    requires RowsValid(sd.rows)
    requires RowIndexOf(sd.rows, ySrc).Some?
    ensures var (sd2, res) := CloneRowSpec(sd, ySrc, yDest);
      var src := sd.rows[RowIndexOf(sd.rows, ySrc).value];
      var k := RowInsertIndex(RowNumbers(sd.rows), yDest);
      && k < |sd2.rows| && sd2.rows[k].r == yDest
      && |sd2.rows[k].cells| == |src.cells|
      && OnItsRow(sd2.rows[k])
      && (forall j :: 0 <= j < |src.cells| ==>
            var d := sd2.rows[k].cells[j];
            Column(d) == Column(src.cells[j]) && d.s == src.cells[j].s && d.f == src.cells[j].f
            && d.t.None? && d.v.None?)
      && (res.Ok? ==> res.value == Some(sd2.rows[k]))
  {
  }

  /** The rows with cell `j` of row `i` replaced, as the in-place edits of `data` and `fill` leave them. */
  function ReplaceCell(rows: seq<Row>, i: nat, j: nat, c: Cell): seq<Row>
    requires i < |rows| && j < |rows[i].cells|
  {
    rows[i := Row(rows[i].r, rows[i].cells[j := c])]
  }

  /**
   * Replacing a cell by one with the same address leaves every lookup where
   * it was: rows and cells are found by their numbers and addresses alone.
   */
  lemma ReplaceCellKeepsLocation(rows: seq<Row>, i: nat, j: nat, c: Cell, y: nat, a1Key: string, r1c1Key: string)
    requires i < |rows| && j < |rows[i].cells| && c.r == rows[i].cells[j].r
    ensures CellLocation(ReplaceCell(rows, i, j, c), y, a1Key, r1c1Key) == CellLocation(rows, y, a1Key, r1c1Key)
  {
    var rows2 := ReplaceCell(rows, i, j, c);
    SameNumbersSameRow(rows, rows2, y);
    match RowIndexOf(rows, y)
    case None =>
    case Some(k) =>
      SameAddressesSameCell(rows[k].cells, rows2[k].cells, a1Key, r1c1Key);
  }

  lemma SameNumbersSameRow(rows: seq<Row>, rows2: seq<Row>, y: nat)
    requires |rows| == |rows2| && forall k :: 0 <= k < |rows| ==> rows[k].r == rows2[k].r
    ensures RowIndexOf(rows, y) == RowIndexOf(rows2, y)
  {
    var a, b := RowIndexOf(rows, y), RowIndexOf(rows2, y);
    if a.Some? && b.Some? {
      assert !(a.value < b.value) && !(b.value < a.value);
    }
  }

  lemma SameAddressesSameCell(cells: seq<Cell>, cells2: seq<Cell>, a1Key: string, r1c1Key: string)
    requires |cells| == |cells2| && forall k :: 0 <= k < |cells| ==> cells[k].r == cells2[k].r
    ensures CellIndexOf(cells, a1Key, r1c1Key) == CellIndexOf(cells2, a1Key, r1c1Key)
  {
    var a, b := CellIndexOf(cells, a1Key, r1c1Key), CellIndexOf(cells2, a1Key, r1c1Key);
    if a.Some? && b.Some? {
      assert !(a.value < b.value) && !(b.value < a.value);
    }
  }

  // ---------------------------------------------------------------------
  // The worksheet object
  // ---------------------------------------------------------------------

  class Worksheet {
    var rows: seq<Row>
    var merges: seq<string>
    var mergeCount: int

    /** Every cell address in the sheet can be read. */
    predicate Valid()
      reads this
    {
      RowsValid(rows)
    }

    function State(): SheetData
      reads this
    {
      SheetData(rows, merges, mergeCount)
    }

    constructor (rows: seq<Row>, merges: seq<string>, mergeCount: int)
      ensures this.rows == rows && this.merges == merges && this.mergeCount == mergeCount
    {
      this.rows := rows;
      this.merges := merges;
      this.mergeCount := mergeCount;
    }

    /** A deep copy, as reloading a sheet's XML text makes. */
    constructor Copy(other: Worksheet)
      ensures State() == old(other.State())
    {
      rows := other.rows;
      merges := other.merges;
      mergeCount := other.mergeCount;
    }

    /** `locateRow`. */
    method LocateRow(y: nat) returns (i: Option<nat>)
      ensures i == RowIndexOf(rows, y)
    {
      var ix := 0;
      while ix < |rows|
        invariant 0 <= ix <= |rows|
        invariant forall k :: 0 <= k < ix ==> rows[k].r != y
      {
        if rows[ix].r == y {
          return Some(ix);
        }
        ix := ix + 1;
      }
      return None;
    }

    /** `locateCell`, given the two texts `LocateKeys` builds. */
    method LocateCell(y: nat, a1Key: string, r1c1Key: string) returns (loc: Option<(nat, nat)>)
      ensures loc == CellLocation(rows, y, a1Key, r1c1Key)
    {
      var row := LocateRow(y);
      if row.None? {
        return None;
      }
      var i := row.value;
      var cells := rows[i].cells;
      var j := 0;
      while j < |cells|
        invariant 0 <= j <= |cells|
        invariant forall k :: 0 <= k < j ==> cells[k].r != a1Key && cells[k].r != r1c1Key
      {
        if cells[j].r == a1Key || cells[j].r == r1c1Key {
          return Some((i, j));
        }
        j := j + 1;
      }
      return None;
    }

    /**
     * `insertElementByPosition` of a row into `<sheetData>`: the placement
     * loop, the renumbering loop, then the insertion before the row the
     * placement names when the renumbering is done.
     */
    method InsertRow(row: Row) returns (k: nat)
      requires Valid() && CellsValid(row.cells)
      modifies this
      ensures k == RowInsertIndex(RowNumbers(old(rows)), row.r)
      ensures rows == InsertRowSpec(old(rows), row)
      ensures merges == old(merges) && mergeCount == old(mergeCount)
    {
      var bound: bool;
      k, bound := InsertPosition(RowNumbers(rows), row.r);
      rows, k := RenumberRows(rows, row.r, k, bound);
      rows := Insert(rows, k, row);
    }

    /**
     * The rows at or below `pos` moved down one, row by row, each with its
     * cells. When the placement `before` is `bound` to the loop variable,
     * each turn's row becomes the placement.
     */
    static method RenumberRows(rs: seq<Row>, pos: nat, before: nat, bound: bool) returns (moved: seq<Row>, target: nat)
      requires RowsValid(rs)
      ensures moved == ShiftRows(rs, pos)
      ensures target == if bound && |rs| > 0 then |rs| - 1 else before
    {
      moved, target := rs, before;
      var ix := 0;
      while ix < |moved|
        invariant 0 <= ix <= |moved| == |rs|
        invariant forall m :: 0 <= m < ix ==> moved[m] == ShiftRow(rs[m], pos)
        invariant forall m :: ix <= m < |moved| ==> moved[m] == rs[m]
        invariant target == if bound && ix > 0 then ix - 1 else before
      {
        if bound {
          target := ix;
        }
        var current := moved[ix];
        if current.r >= pos {
          var cells := RelocateCells(current.cells, current.r + 1);
          moved := moved[ix := Row(current.r + 1, cells)];
        }
        ix := ix + 1;
      }
    }

    /** The cells of a row moved to row `y`, one by one. */
    static method RelocateCells(cells: seq<Cell>, y: nat) returns (moved: seq<Cell>)
      requires CellsValid(cells)
      ensures moved == RelocateAll(cells, y)
    {
      moved := cells;
      var j := 0;
      while j < |moved|
        invariant 0 <= j <= |moved| == |cells|
        invariant forall m :: 0 <= m < j ==> moved[m] == Relocate(cells[m], y)
        invariant forall m :: j <= m < |moved| ==> moved[m] == cells[m]
      {
        moved := moved[j := Relocate(cells[j], y)];
        j := j + 1;
      }
      ghost var all := RelocateAll(cells, y);
      assert forall m :: 0 <= m < |cells| ==> moved[m] == all[m];
    }

    /** `insertElementByPosition` of a cell into row `i`. */
    method InsertCell(i: nat, cell: Cell) returns (j: nat)
      requires Valid() && i < |rows| && CellValid(cell)
      modifies this
      ensures j == InsertIndex(Columns(old(rows)[i].cells), Column(cell))
      ensures rows == old(rows)[i := Row(old(rows)[i].r, InsertCellSpec(old(rows)[i].cells, cell))]
      ensures merges == old(merges) && mergeCount == old(mergeCount)
    {
      var row := rows[i];
      var bound: bool;
      j, bound := InsertPosition(Columns(row.cells), Column(cell));
      rows := rows[i := Row(row.r, Insert(row.cells, j, cell))];
    }

    /**
     * `shiftDownMergedCells`. Each range's step depends on that range's text
     * alone, so the steps are read first and then applied in order.
     */
    method ShiftDownMergedCells(yStart: nat, yOrigin: Option<nat>) returns (err: Option<Error>)
      modifies this
      ensures (State(), err) == ShiftDown(old(State()), yStart, yOrigin)
    {
      var steps := MergeSteps(merges, yStart, yOrigin);
      err := ApplyMergeSteps(steps);
    }

    /** The scan of `shiftDownMergedCells`, then the copies appended and counted. */
    method ApplyMergeSteps(steps: seq<Result<(string, Option<string>)>>) returns (err: Option<Error>)
      requires |steps| == |merges|
      modifies this
      ensures (State(), err) == ShiftDownBy(old(State()), steps)
    {
      if |merges| == 0 {
        return None;
      }
      ghost var sd := State();
      var toAdd;
      merges, toAdd, err := ScanMerges(merges, steps);
      ghost var m := MergeShift(merges, toAdd, err);
      assert ShiftDownBy(sd, steps) == if err.Some? then (sd.(merges := m.refs), m.error)
        else (sd.(merges := m.refs + m.added, mergeCount := sd.mergeCount + |m.added|), None);
      if err.Some? {
        return;
      }
      AppendMerges(toAdd);
    }

    /** The collected copies appended one by one, each counted. */
    method AppendMerges(toAdd: seq<string>)
      modifies this
      ensures merges == old(merges) + toAdd && mergeCount == old(mergeCount) + |toAdd|
      ensures rows == old(rows)
    {
      var n := 0;
      while n < |toAdd|
        invariant 0 <= n <= |toAdd|
        invariant merges == old(merges) + toAdd[..n]
        invariant mergeCount == old(mergeCount) + n
        invariant rows == old(rows)
      {
        merges := merges + [toAdd[n]];
        mergeCount := mergeCount + 1;
        assert toAdd[..n + 1] == toAdd[..n] + [toAdd[n]];
        n := n + 1;
      }
      assert toAdd[..n] == toAdd;
    }

    /** The ranges rewritten one by one in place, collecting the copies, until a step fails. */
    static method ScanMerges(refs: seq<string>, steps: seq<Result<(string, Option<string>)>>)
      returns (scanned: seq<string>, toAdd: seq<string>, err: Option<Error>)
      requires |steps| == |refs|
      ensures MergeShift(scanned, toAdd, err) == ScanFrom(refs, steps, 0)
    {
      scanned, toAdd := refs, [];
      var i := 0;
      while i < |scanned|
        invariant 0 <= i <= |scanned| == |refs|
        invariant var rest := ScanFrom(scanned, steps, i);
          ScanFrom(refs, steps, 0) == MergeShift(rest.refs, toAdd + rest.added, rest.error)
      {
        if steps[i].Err? {
          return scanned, toAdd, Some(steps[i].error);
        }
        var (moved, copy) := steps[i].value;
        ghost var rest := ScanFrom(scanned[i := moved], steps, i + 1);
        var added := if copy.Some? then [copy.value] else [];
        assert ScanFrom(scanned, steps, i) == MergeShift(rest.refs, added + rest.added, rest.error);
        AppendAssociates(toAdd, added, rest.added);
        scanned := scanned[i := moved];
        toAdd := toAdd + added;
        i := i + 1;
      }
      assert ScanFrom(scanned, steps, i) == MergeShift(scanned, [], None);
      return scanned, toAdd, None;
    }

    /** `addRow`: returns the index of the new row. */
    method AddRow(y: nat) returns (err: Option<Error>, k: nat)
      requires Valid()
      modifies this
      ensures (State(), err) == AddRowSpec(old(State()), y)
      ensures err.None? ==> k == RowInsertIndex(RowNumbers(old(rows)), y)
    {
      err := ShiftDownMergedCells(y, None);
      if err.Some? {
        return err, 0;
      }
      k := InsertRow(Row(y, []));
    }

    /** `addCell`: returns where the new cell is. */
    method AddCell(address: string, y: nat) returns (err: Option<Error>, loc: (nat, nat))
      requires Valid() && CellValid(NewCell(address))
      modifies this
      ensures (State(), err) == AddCellSpec(old(State()), address, y)
      ensures err.None? ==> loc == AddedAt(old(State()), address, y)
      ensures err.None? ==> loc.0 < |rows| && loc.1 < |rows[loc.0].cells|
      ensures err.None? ==> rows[loc.0].cells[loc.1] == NewCell(address)
    {
      var i := LocateRow(y);
      var ri: nat;
      if i.Some? {
        ri := i.value;
      } else {
        err, ri := AddRow(y);
        if err.Some? {
          return err, (0, 0);
        }
      }
      var ci := InsertCell(ri, NewCell(address));
      return None, (ri, ci);
    }

    /** `cloneRow`: returns the new row, or nothing when there is no source row. */
    method CloneRow(ySrc: nat, yDest: nat) returns (res: Result<Option<Row>>)
      requires Valid()
      modifies this
      ensures (State(), res) == CloneRowSpec(old(State()), ySrc, yDest)
    {
      var src := LocateRow(ySrc);
      if src.None? {
        return Ok(None);
      }
      var cells := rows[src.value].cells;
      var copied := cells;
      var j := 0;
      while j < |copied|
        invariant 0 <= j <= |copied| == |cells|
        invariant forall m :: 0 <= m < j ==> copied[m] == CloneCell(cells[m], yDest)
        invariant forall m :: j <= m < |copied| ==> copied[m] == cells[m]
      {
        var c := copied[j].(t := None, v := None);
        copied := copied[j := Relocate(c, yDest)];
        j := j + 1;
      }
      assert copied == CloneCells(cells, yDest);
      var copy := Row(yDest, copied);
      var _ := InsertRow(copy);
      ghost var sd1 := State();
      assert sd1 == old(State()).(rows := InsertRowSpec(old(rows), copy));
      var err := ShiftDownMergedCells(yDest, Some(ySrc));
      res := if err.Some? then Err(err.value) else Ok(Some(copy));
      assert CloneRowSpec(old(State()), ySrc, yDest) == (State(), res);
    }

    /** Replaces cell `j` of row `i`, as the in-place edits of `data` and `fill` do. */
    method SetCell(i: nat, j: nat, c: Cell)
      requires i < |rows| && j < |rows[i].cells|
      modifies this
      ensures rows == ReplaceCell(old(rows), i, j, c)
      ensures merges == old(merges) && mergeCount == old(mergeCount)
    {
      rows := ReplaceCell(rows, i, j, c);
    }
  }
}
