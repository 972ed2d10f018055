/**
 * The value writer of `data`: the shared-string table (`sharedStrings.xml`),
 * `addSharedString`, `updateSharedString`, `formatDataWrite`, PHP's
 * `is_numeric` test that promotes numeric text to a number, and what `data`
 * does to one located cell.
 */
module CellValues {
  import opened Common
  import opened Address
  import opened DateSerial
  import opened Worksheets

  // ---------------------------------------------------------------------
  // The shared-string table
  // ---------------------------------------------------------------------

  /** A child of an `<si>` element (a `<t>` text or an `<r>` rich run) and the text it holds. */
  datatype Node = Node(name: string, text: string)

  /**
   * The `<sst>` part: its `<si>` items in order, each as its children, and
   * its `count` and `uniqueCount` attributes as numbers.
   */
  datatype StringTable = StringTable(items: seq<seq<Node>>, count: int, uniqueCount: int)

  /** `strip_tags` of an `<si>` item: the texts of its children, run together. */
  function Flatten(nodes: seq<Node>): (s: string)
    ensures |nodes| == 1 ==> s == nodes[0].text
  {
    if |nodes| == 0 then "" else nodes[0].text + Flatten(nodes[1..])
  }

  /** What `data` is given to write: plain text, or a rich-text element with its own text and children. */
  datatype Input = Scalar(text: string) | Rich(ownText: string, children: seq<Node>)

  /** PHP's string cast of the input. */
  function InputText(data: Input): string
  {
    match data
    case Scalar(s) => s
    case Rich(s, _) => s
  }

  /** The test `!is_object($data) && (string)$data == ""` that blanks a cell. */
  predicate IsBlank(data: Input)
  {
    data == Scalar("")
  }

  /** `updateSharedString`: plain text becomes one `<t>` run; rich text brings its own children. */
  function Content(data: Input): (nodes: seq<Node>)
    ensures data.Scalar? ==> Flatten(nodes) == data.text
  {
    match data
    case Scalar(s) => [Node("t", s)]
    case Rich(_, children) => children
  }

  /**
   * `addSharedString` on the table: an empty item is appended, `uniqueCount`
   * becomes the new number of items and `count` goes up by one.
   */
  function AppendEmpty(tbl: StringTable): (r: StringTable)
    ensures |r.items| == |tbl.items| + 1 && r.items[|tbl.items|] == []
    ensures r.items[..|tbl.items|] == tbl.items
    ensures r.uniqueCount == |tbl.items| + 1 && r.count == tbl.count + 1
  {
    StringTable(tbl.items + [[]], tbl.count + 1, |tbl.items| + 1)
  }

  /** `addSharedString` on the cell: type `s`, and `<v>` the index of the appended item. */
  function PointAt(c: Cell, index: nat): (d: Cell)
    ensures d.t == Some("s") && d.v == Some(Text(NatToString(index)))
    ensures d.r == c.r && d.s == c.s && d.f == c.f
  {
    c.(t := Some("s"), v := Some(Text(NatToString(index))))
  }

  /** `(int)` of a cell's `<v>`: the shared-string index a cell of type `s` points at. */
  function StoredIndex(v: Value): nat
  {
    match v
    case Text(s) => IntCast(s)
    case Date(serial) => if serial.days >= 0 then serial.days else 0
  }

  /** The index a cell written by `PointAt` reads back. */
  lemma StoredIndexOfPointAt(c: Cell, index: nat)
    ensures StoredIndex(PointAt(c, index).v.value) == index
  {
    var s := NatToString(index);
    DigitsOfNatToString(index);
    assert s[..DigitPrefixLength(s)] == s;
  }

  // ---------------------------------------------------------------------
  // PHP's is_numeric
  // ---------------------------------------------------------------------

  predicate IsSpace(c: char)
  {
    c == ' ' || c == '\t' || c == '\n' || c == '\r' || c == 11 as char || c == 12 as char
  }

  /** Number of leading white-space characters. */
  function SpaceRun(s: string): (n: nat)
    ensures n <= |s|
  {
    if |s| == 0 || !IsSpace(s[0]) then 0 else 1 + SpaceRun(s[1..])
  }

  /** Number of decimal digits at `s[i..]`. */
  function DigitRun(s: string, i: nat): (n: nat)
    ensures i <= |s| ==> i + n <= |s|
    ensures forall k :: i <= k < i + n ==> k < |s| && IsDigit(s[k])
    ensures i + n < |s| ==> !IsDigit(s[i + n])
    decreases |s| - i
  {
    if i >= |s| || !IsDigit(s[i]) then 0 else 1 + DigitRun(s, i + 1)
  }

  predicate IsHexDigit(c: char) { IsDigit(c) || 'a' <= c <= 'f' || 'A' <= c <= 'F' }

  /** `0x` followed by hexadecimal digits (accepted by `is_numeric` before PHP 7). */
  predicate IsHexNumber(b: string)
  {
    |b| > 2 && b[0] == '0' && (b[1] == 'x' || b[1] == 'X') && forall k :: 2 <= k < |b| ==> IsHexDigit(b[k])
  }

  /** From `i` on: nothing, or `e`/`E`, an optional sign and at least one digit, ending the text. */
  predicate ExponentEnds(b: string, i: nat)
  {
    i == |b|
    || (i < |b| && (b[i] == 'e' || b[i] == 'E') &&
        var j := if i + 1 < |b| && (b[i + 1] == '+' || b[i + 1] == '-') then i + 2 else i + 1;
        var e := DigitRun(b, j);
        e > 0 && j + e == |b|)
  }

  /** An optional sign, digits with an optional fraction (at least one digit in all), an optional exponent. */
  predicate IsDecimalNumber(b: string)
  {
    var i0 := if |b| > 0 && (b[0] == '+' || b[0] == '-') then 1 else 0;
    var m := DigitRun(b, i0);
    var i1 := i0 + m;
    if i1 < |b| && b[i1] == '.' then
      var f := DigitRun(b, i1 + 1);
      (m > 0 || f > 0) && ExponentEnds(b, i1 + 1 + f)
    else
      m > 0 && ExponentEnds(b, i1)
  }

  /** `is_numeric` of a string: leading white space, then a decimal or hexadecimal number and nothing after it. */
  predicate IsNumeric(s: string)
  {
    var b := s[SpaceRun(s)..];
    IsHexNumber(b) || IsDecimalNumber(b)
  }

  /** `is_numeric` of the value `data` is given; a rich-text object is never numeric. */
  predicate IsNumericInput(data: Input)
  {
    data.Scalar? && IsNumeric(data.text)
  }

  /** Every number the library itself renders, such as `42`, is numeric text. */
  lemma NumeralIsNumeric(n: nat)
    ensures IsNumeric(NatToString(n))
  {
    var s := NatToString(n);
    assert SpaceRun(s) == 0;
    assert s[0..] == s;
    assert DigitRun(s, 0) == |s| by {
      DigitsFill(s, 0);
    }
  }

  lemma {:induction false} DigitsFill(s: string, i: nat)
    requires AllDigits(s) && i <= |s|
    ensures DigitRun(s, i) == |s| - i
    decreases |s| - i
  {
    if i < |s| {
      DigitsFill(s, i + 1);
    }
  }

  /** Text that starts with a letter, such as a name, is not numeric. */
  lemma WordIsNotNumeric(s: string)
    requires |s| > 0 && IsLetter(s[0]) && s[0] != 'e' && s[0] != 'E'
    ensures !IsNumeric(s)
  {
    assert SpaceRun(s) == 0;
    assert s[0..] == s;
  }

  // ---------------------------------------------------------------------
  // What `data` does to one cell
  // ---------------------------------------------------------------------

  /** What `data` returns: nothing, the text of a shared string, or the stored value before `formatDataRead`. */
  datatype Previous = Nothing | SharedText(text: string) | Stored(style: Option<string>, value: Value)

  /**
   * `formatDataWrite`: the type attribute goes; a `d` value is stored as the
   * date serial of its text, any other as its text.
   */
  function FormatDataWrite(ty: string, data: Input, c: Cell): (d: Cell)
    ensures d.t.None? && d.r == c.r && d.s == c.s && d.f == c.f
    ensures ty == "d" ==> d.v == Some(Date(ConvertDateTime(InputText(data))))
    ensures ty != "d" ==> d.v == Some(Text(InputText(data)))
  {
    var value := if ty == "d" then Date(ConvertDateTime(InputText(data))) else Text(InputText(data));
    c.(t := None, v := Some(value))
  }

  /** The cell, the table, the shared-string item the write goes to (if any) and the value `data` returns, after its reading half. */
  datatype ReadStep = ReadStep(c: Cell, tbl: StringTable, target: Option<nat>, previous: Previous)

  /**
   * The reading half of `data` on a located cell. A cell of type `s` returns
   * its shared string (an index past the table is a fatal error) and that
   * item is the one a text write replaces. A cell with another value
   * returns it and, if text is to be written (type `s`, as given or by
   * default), gets a fresh shared string. A cell without a value returns
   * nothing and, if non-blank text is to be written, gets a fresh shared
   * string; a non-blank value of another type gets a `<v>` of its text.
   */
  function ReadHalf(c: Cell, tbl: StringTable, data: Option<Input>, ty: string): (r: Result<ReadStep>)
    ensures r.Ok? && r.value.target.Some? ==> r.value.target.value < |r.value.tbl.items|
  {
    if c.v.Some? then
      if c.t == Some("s") then
        var index := StoredIndex(c.v.value);
        if index >= |tbl.items| then Err(BrokenReference("shared string " + NatToString(index)))
        else Ok(ReadStep(c, tbl, Some(index), SharedText(Flatten(tbl.items[index]))))
      else if data.Some? && ty == "s" then
        Ok(ReadStep(PointAt(c, |tbl.items|), AppendEmpty(tbl), Some(|tbl.items|), Stored(c.s, c.v.value)))
      else Ok(ReadStep(c, tbl, None, Stored(c.s, c.v.value)))
    else if data.Some? && !IsBlank(data.value) then
      if ty == "s" then Ok(ReadStep(PointAt(c, |tbl.items|), AppendEmpty(tbl), Some(|tbl.items|), Nothing))
      else Ok(ReadStep(c.(v := Some(Text(InputText(data.value)))), tbl, None, Nothing))
    else Ok(ReadStep(c, tbl, None, Nothing))
  }

  /**
   * `data` on a located cell, with `t` absent when the caller passed only a
   * value. After the reading half: a blank value removes the type and the
   * value; any other value removes the formula and is written as a shared
   * string (type `s`), or through `formatDataWrite` (numeric text with no
   * type given is promoted to `n`).
   */
  function WriteData(c: Cell, tbl: StringTable, data: Option<Input>, t: Option<string>): (r: Result<(Cell, StringTable, Previous)>)
    ensures r.Ok? ==> r.value.0.r == c.r && r.value.0.s == c.s
  {
    var ty := if t.Some? then t.value else "s";
    match ReadHalf(c, tbl, data, ty)
    case Err(e) => Err(e)
    case Ok(step) =>
      if data.None? then Ok((step.c, step.tbl, step.previous))
      else if IsBlank(data.value) then Ok((step.c.(t := None, v := None), step.tbl, step.previous))
      else
        var c1 := step.c.(f := None);
        var ty2 := if IsNumericInput(data.value) && t.None? then "n" else ty;
        if ty2 == "s" then
          if step.target.Some? then
            var items := step.tbl.items[step.target.value := Content(data.value)];
            Ok((c1, step.tbl.(items := items), step.previous))
          else Ok((c1, step.tbl, step.previous))
        else Ok((FormatDataWrite(ty2, data.value, c1), step.tbl, step.previous))
  }

  // ---------------------------------------------------------------------
  // Properties of a write
  // ---------------------------------------------------------------------

  /** Whenever text is written, a target item exists: the last branch of `WriteData` above is never taken. */
  lemma TextWriteHasTarget(c: Cell, tbl: StringTable, data: Input, t: Option<string>)
    requires ReadHalf(c, tbl, Some(data), if t.Some? then t.value else "s").Ok?
    requires !IsBlank(data) && !(IsNumericInput(data) && t.None?) && (t.None? || t.value == "s")
    ensures ReadHalf(c, tbl, Some(data), if t.Some? then t.value else "s").value.target.Some?
  {
  }

  /**
   * Writing non-numeric text to a cell without a value appends one item at
   * the old end of the table holding that text, counts it in both counters,
   * and points the cell at it; the formula goes and nothing is returned.
   */
  lemma {:induction false} WriteTextToEmptyCell(c: Cell, tbl: StringTable, text: string)
    requires c.v.None? && text != "" && !IsNumeric(text)
    ensures var r := WriteData(c, tbl, Some(Scalar(text)), None);
      && r.Ok?
      && var (d, tbl2, prev) := r.value;
      && prev == Nothing
      && tbl2.items == tbl.items + [[Node("t", text)]]
      && tbl2.uniqueCount == |tbl.items| + 1 && tbl2.count == tbl.count + 1
      && d == c.(t := Some("s"), v := Some(Text(NatToString(|tbl.items|))), f := None)
      && StoredIndex(d.v.value) == |tbl.items|
  {
    var d := PointAt(c, |tbl.items|);
    StoredIndexOfPointAt(c, |tbl.items|);
    var t1 := AppendEmpty(tbl);
    assert t1.items[|tbl.items| := [Node("t", text)]] == tbl.items + [[Node("t", text)]];
  }

  /**
   * Text written to a cell is what reading the cell returns: after the write
   * above, `data` without a value gives back the text and changes nothing.
   */
  lemma ReadBackText(c: Cell, tbl: StringTable, text: string)
    requires c.v.None? && text != "" && !IsNumeric(text)
    ensures var (d, tbl2, _) := WriteData(c, tbl, Some(Scalar(text)), None).value;
      WriteData(d, tbl2, None, None) == Ok((d, tbl2, SharedText(text)))
  {
    WriteTextToEmptyCell(c, tbl, text);
  }

  /**
   * Writing to a cell that already holds a shared string replaces that item
   * in place (other cells pointing at it see the new text), adds no item and
   * leaves both counters alone; it returns the old text.
   */
  lemma RewriteSharedString(c: Cell, tbl: StringTable, text: string)
    requires c.v.Some? && c.t == Some("s") && StoredIndex(c.v.value) < |tbl.items|
    requires text != "" && !IsNumeric(text)
    ensures var r := WriteData(c, tbl, Some(Scalar(text)), None);
      && r.Ok?
      && r.value.0 == c.(f := None)
      && r.value.1 == tbl.(items := tbl.items[StoredIndex(c.v.value) := [Node("t", text)]])
      && r.value.2 == SharedText(Flatten(tbl.items[StoredIndex(c.v.value)]))
  {
  }

  /**
   * Writing numeric text with no type stores it as a number (no type, the
   * text as value, no formula), yet an empty shared-string item is appended
   * and counted first, and nothing points at it.
   */
  lemma NumericWriteLeavesOrphanItem(c: Cell, tbl: StringTable, text: string)
    requires c.v.None? && text != "" && IsNumeric(text)
    ensures var r := WriteData(c, tbl, Some(Scalar(text)), None);
      && r.Ok?
      && r.value.0 == c.(t := None, v := Some(Text(text)), f := None)
      && r.value.1 == AppendEmpty(tbl)
  {
  }

  /** With an explicit type `n`, numeric text is stored as a number and the table is untouched. */
  lemma NumberWithExplicitType(c: Cell, tbl: StringTable, text: string)
    requires c.v.None? && text != ""
    ensures WriteData(c, tbl, Some(Scalar(text)), Some("n")) == Ok((c.(t := None, v := Some(Text(text)), f := None), tbl, Nothing))
  {
  }

  /**
   * Writing the empty string blanks the cell: its type and value are gone,
   * whatever it held. A cell that held a number also gets an orphan shared
   * string, because the reading half adds one before the blanking.
   */
  lemma BlankingClearsCell(c: Cell, tbl: StringTable)
    requires !(c.v.Some? && c.t == Some("s") && StoredIndex(c.v.value) >= |tbl.items|)
    ensures var r := WriteData(c, tbl, Some(Scalar("")), None);
      && r.Ok? && r.value.0.t.None? && r.value.0.v.None?
      && r.value.0.r == c.r && r.value.0.s == c.s && r.value.0.f == c.f
      && r.value.1 == (if c.v.Some? && c.t != Some("s") then AppendEmpty(tbl) else tbl)
  {
  }

  /** A value written with type `d` is stored as the date serial of its text, and the table is untouched. */
  lemma WriteDate(c: Cell, tbl: StringTable, text: string)
    requires c.v.None? && text != ""
    ensures WriteData(c, tbl, Some(Scalar(text)), Some("d"))
         == Ok((c.(t := None, v := Some(Date(ConvertDateTime(text))), f := None), tbl, Nothing))
  {
  }

  /** Reading never changes the cell or the table; a shared string past the table's end is an error. */
  lemma ReadChangesNothing(c: Cell, tbl: StringTable)
    ensures var r := WriteData(c, tbl, None, None);
      (c.v.Some? && c.t == Some("s") && StoredIndex(c.v.value) >= |tbl.items|) <==> r.Err?
    ensures WriteData(c, tbl, None, None).Ok? ==> WriteData(c, tbl, None, None).value.0 == c
    ensures WriteData(c, tbl, None, None).Ok? ==> WriteData(c, tbl, None, None).value.1 == tbl
  {
  }

  /**
   * Writing text and then reading the same cell gives the text back, whatever
   * the cell held before: the cell ends up pointing at the item that holds it.
   */
  lemma ReadBackAnyCell(c: Cell, tbl: StringTable, text: string)
    requires text != "" && !IsNumeric(text)
    requires WriteData(c, tbl, Some(Scalar(text)), None).Ok?
    ensures var (d, tbl2, _) := WriteData(c, tbl, Some(Scalar(text)), None).value;
      WriteData(d, tbl2, None, None) == Ok((d, tbl2, SharedText(text)))
  {
    TextWriteHasTarget(c, tbl, Scalar(text), None);
    var step := ReadHalf(c, tbl, Some(Scalar(text)), "s").value;
    if !(c.v.Some? && c.t == Some("s")) {
      StoredIndexOfPointAt(c, |tbl.items|);
    }
  }

  // ---------------------------------------------------------------------
  // `data` on a sheet
  // ---------------------------------------------------------------------

  /** `data` on the cell at `loc`: the cell is written back in place. */
  function WriteAt(sd: SheetData, tbl: StringTable, loc: (nat, nat), data: Option<Input>, t: Option<string>): (result: (SheetData, StringTable, Result<Previous>))
    requires RowsValid(sd.rows) && loc.0 < |sd.rows| && loc.1 < |sd.rows[loc.0].cells|
    ensures RowsValid(result.0.rows)
  {
    match WriteData(sd.rows[loc.0].cells[loc.1], tbl, data, t)
    case Err(e) => (sd, tbl, Err(e))
    case Ok((d, tbl2, previous)) =>
      assert CellValid(d) by { assert d.r == sd.rows[loc.0].cells[loc.1].r; }
      (sd.(rows := ReplaceCell(sd.rows, loc.0, loc.1, d)), tbl2, Ok(previous))
  }

  /**
   * `data`: the address is read and the cell located. A missing cell is
   * added first when there is a value to write (the row too, moving the
   * rows and merged ranges below); reading a missing cell gives nothing and
   * changes nothing.
   */
  function DataSpec(sd: SheetData, tbl: StringTable, address: string, data: Option<Input>, t: Option<string>): (result: (SheetData, StringTable, Result<Previous>))
    requires RowsValid(sd.rows)
    ensures RowsValid(result.0.rows)
  {
    match CheckedCellAddress(address)
    case Err(e) => (sd, tbl, Err(e))
    case Ok(ref) =>
      var keys := LocateKeys(address);
      match CellLocation(sd.rows, ref.y, keys.0, keys.1)
      case Some(loc) => WriteAt(sd, tbl, loc, data, t)
      case None =>
        if data.None? then (sd, tbl, Ok(Nothing))
        else
          var (sd1, err) := AddCellSpec(sd, keys.0, ref.y);
          if err.Some? then (sd1, tbl, Err(err.value))
          else
            AddedCellLocated(sd, keys.0, keys.1, ref.y);
            WriteAt(sd1, tbl, AddedAt(sd, keys.0, ref.y), data, t)
  }

  /**
   * On a sheet: text written at an address is what reading that address
   * then returns, and the read changes nothing.
   */
  lemma DataReadBack(sd: SheetData, tbl: StringTable, address: string, text: string)
    requires RowsValid(sd.rows) && text != "" && !IsNumeric(text)
    requires DataSpec(sd, tbl, address, Some(Scalar(text)), None).2.Ok?
    ensures var (sd2, tbl2, _) := DataSpec(sd, tbl, address, Some(Scalar(text)), None);
      DataSpec(sd2, tbl2, address, None, None) == (sd2, tbl2, Ok(SharedText(text)))
  {
    var ref := CheckedCellAddress(address).value;
    var keys := LocateKeys(address);
    var sd1 := if CellLocation(sd.rows, ref.y, keys.0, keys.1).Some? then sd else AddCellSpec(sd, keys.0, ref.y).0;
    var loc: (nat, nat);
    if CellLocation(sd.rows, ref.y, keys.0, keys.1).Some? {
      loc := CellLocation(sd.rows, ref.y, keys.0, keys.1).value;
    } else {
      AddedCellLocated(sd, keys.0, keys.1, ref.y);
      loc := AddedAt(sd, keys.0, ref.y);
    }
    assert CellLocation(sd1.rows, ref.y, keys.0, keys.1) == Some(loc);
    assert DataSpec(sd, tbl, address, Some(Scalar(text)), None) == WriteAt(sd1, tbl, loc, Some(Scalar(text)), None);
    var c := sd1.rows[loc.0].cells[loc.1];
    ReadBackAnyCell(c, tbl, text);
    var (d, tbl2, _) := WriteData(c, tbl, Some(Scalar(text)), None).value;
    var rows2 := ReplaceCell(sd1.rows, loc.0, loc.1, d);
    ReplaceCellKeepsLocation(sd1.rows, loc.0, loc.1, d, ref.y, keys.0, keys.1);
    assert rows2[loc.0].cells[loc.1 := d] == rows2[loc.0].cells;
    assert ReplaceCell(rows2, loc.0, loc.1, d) == rows2;
  }

  /** `data` on an address nobody wrote: reading gives nothing and adds no cell. */
  lemma ReadMissingCell(sd: SheetData, tbl: StringTable, address: string)
    requires RowsValid(sd.rows) && CheckedCellAddress(address).Ok?
    requires var keys := LocateKeys(address);
      CellLocation(sd.rows, CheckedCellAddress(address).value.y, keys.0, keys.1).None?
    ensures DataSpec(sd, tbl, address, None, None) == (sd, tbl, Ok(Nothing))
  {
  }

  /** `data`, on the given sheet and shared-string table. */
  method Data(sheet: Worksheet, strings: SharedStrings, address: string, data: Option<Input>, t: Option<string>)
    returns (r: Result<Previous>)
    requires sheet.Valid()
    modifies sheet, strings
    ensures (sheet.State(), strings.State(), r) == DataSpec(old(sheet.State()), old(strings.State()), address, data, t)
  {
    ghost var sd0, tbl0 := sheet.State(), strings.State();
    var ref := CheckedCellAddress(address);
    if ref.Err? {
      return Err(ref.error);
    }
    var y := ref.value.y;
    var keys := LocateKeys(address);
    var loc := sheet.LocateCell(y, keys.0, keys.1);
    if loc.None? {
      if data.None? {
        return Ok(Nothing);
      }
      var err, added := sheet.AddCell(keys.0, y);
      if err.Some? {
        return Err(err.value);
      }
      loc := Some(added);
    }
    ghost var sd1 := sheet.State();
    assert DataSpec(sd0, tbl0, address, data, t) == WriteAt(sd1, tbl0, loc.value, data, t);
    var (i, j) := loc.value;
    var written := WriteCell(strings, sheet.rows[i].cells[j], data, t);
    if written.Err? {
      r := Err(written.error);
      assert WriteAt(sd1, tbl0, (i, j), data, t) == (sheet.State(), strings.State(), r);
      return;
    }
    sheet.SetCell(i, j, written.value.0);
    assert sheet.State() == sd1.(rows := ReplaceCell(sd1.rows, i, j, written.value.0));
    r := Ok(written.value.1);
    assert WriteAt(sd1, tbl0, (i, j), data, t) == (sheet.State(), strings.State(), r);
  }

  /** `data` on a located cell: the reading half, then the write. */
  method WriteCell(strings: SharedStrings, c: Cell, data: Option<Input>, t: Option<string>)
    returns (r: Result<(Cell, Previous)>)
    modifies strings
    ensures r.Err? ==> WriteData(c, old(strings.State()), data, t) == Err(r.error) && strings.State() == old(strings.State())
    ensures r.Ok? ==> WriteData(c, old(strings.State()), data, t) == Ok((r.value.0, strings.State(), r.value.1))
  {
    var ty := if t.Some? then t.value else "s";
    var read := ReadCell(strings, c, data, ty);
    if read.Err? {
      return Err(read.error);
    }
    var (d, target, previous) := read.value;
    if data.Some? {
      if IsBlank(data.value) {
        d := d.(t := None, v := None);
      } else {
        d := d.(f := None);
        var ty2 := if IsNumericInput(data.value) && t.None? then "n" else ty;
        if ty2 == "s" {
          if target.Some? {
            strings.Replace(target.value, data.value);
          }
        } else {
          d := FormatDataWrite(ty2, data.value, d);
        }
      }
    }
    return Ok((d, previous));
  }

  /** The reading half of `data` on a cell: returns the cell, the item a text write goes to, and the old value. */
  method ReadCell(strings: SharedStrings, c: Cell, data: Option<Input>, ty: string)
    returns (r: Result<(Cell, Option<nat>, Previous)>)
    modifies strings
    ensures r.Err? ==> ReadHalf(c, old(strings.State()), data, ty) == Err(r.error) && strings.State() == old(strings.State())
    ensures r.Ok? ==> ReadHalf(c, old(strings.State()), data, ty) == Ok(ReadStep(r.value.0, strings.State(), r.value.1, r.value.2))
  {
    if c.v.Some? {
      if c.t == Some("s") {
        var index := StoredIndex(c.v.value);
        if index >= |strings.items| {
          return Err(BrokenReference("shared string " + NatToString(index)));
        }
        return Ok((c, Some(index), SharedText(Flatten(strings.items[index]))));
      }
      if data.Some? && ty == "s" {
        var index := strings.Append();
        return Ok((PointAt(c, index), Some(index), Stored(c.s, c.v.value)));
      }
      return Ok((c, None, Stored(c.s, c.v.value)));
    }
    if data.Some? && !IsBlank(data.value) {
      if ty == "s" {
        var index := strings.Append();
        return Ok((PointAt(c, index), Some(index), Nothing));
      }
      return Ok((c.(v := Some(Text(InputText(data.value)))), None, Nothing));
    }
    return Ok((c, None, Nothing));
  }

  // ---------------------------------------------------------------------
  // The shared-strings part as an object
  // ---------------------------------------------------------------------

  class SharedStrings {
    var items: seq<seq<Node>>
    var count: int
    var uniqueCount: int

    function State(): StringTable
      reads this
    {
      StringTable(items, count, uniqueCount)
    }

    constructor (items: seq<seq<Node>>, count: int, uniqueCount: int)
      ensures State() == StringTable(items, count, uniqueCount)
    {
      this.items := items;
      this.count := count;
      this.uniqueCount := uniqueCount;
    }

    /** The table half of `addSharedString`: returns the index of the new, empty item. */
    method Append() returns (index: nat)
      modifies this
      ensures index == |old(items)|
      ensures State() == AppendEmpty(old(State()))
    {
      index := |items|;
      items := items + [[]];
      uniqueCount := index + 1;
      count := count + 1;
    }

    /** `updateSharedString`: the children of item `index` are replaced. */
    method Replace(index: nat, data: Input)
      requires index < |items|
      modifies this
      ensures State() == old(State()).(items := old(items)[index := Content(data)])
    {
      items := items[index := Content(data)];
    }
  }
}
