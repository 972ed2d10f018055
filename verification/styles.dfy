/**
 * The fill and cell-format tables of the styles part (`<fills>` and
 * `<cellXfs>`), and the two operations that use them: giving a cell a solid
 * fill colour (`fill`) and reading a cell's fill colour back
 * (`getFillColor`).
 */
module Styles {
  import opened Common
  import opened Colors
  import opened Address
  import opened Placement
  import opened Worksheets

  /** The attributes of an element, by name; a missing attribute reads as the empty text. */
  type Attributes = map<string, string>

  function Attr(a: Attributes, name: string): string
  {
    if name in a then a[name] else ""
  }

  /**
   * A `<fill>`: the pattern type and the attributes of the foreground and
   * background colours of its `<patternFill>` (empty when absent). A
   * `<fill>` carries no attributes of its own.
   */
  datatype Fill = Fill(patternType: string, fg: Attributes, bg: Attributes)

  /**
   * The two tables and their `count` attributes (as `(int)` reads them).
   * A cell format (`<xf>`) is its attributes.
   */
  datatype StyleTables = StyleTables(fills: seq<Fill>, fillCount: nat, xfs: seq<Attributes>, xfCount: nat)

  /** The `count` attributes agree with the tables, as in a well-formed styles part. */
  predicate Counted(st: StyleTables)
  {
    st.fillCount == |st.fills| && st.xfCount == |st.xfs|
  }

  /** The solid fill `fill` creates for an ARGB colour. */
  function SolidFill(argb: string): Fill
  {
    Fill("solid", map["rgb" := argb], map["indexed" := "64"])
  }

  /** The first fill at or after `from` whose foreground `rgb`, upper-cased, is `argb`. */
  function FirstFill(fills: seq<Fill>, argb: string, from: nat): (i: Option<nat>)
    ensures i.Some? ==> from <= i.value < |fills| && Upper(Attr(fills[i.value].fg, "rgb")) == argb
    ensures i.Some? ==> forall k :: from <= k < i.value ==> Upper(Attr(fills[k].fg, "rgb")) != argb
    ensures i.None? ==> forall k :: from <= k < |fills| ==> Upper(Attr(fills[k].fg, "rgb")) != argb
    decreases |fills| - from
  {
    if from >= |fills| then None
    else if Upper(Attr(fills[from].fg, "rgb")) == argb then Some(from)
    else FirstFill(fills, argb, from + 1)
  }

  /** `getElementPosition` of each fill: a `<fill>` has no attributes, so its position is its index. */
  function FillPositions(n: nat): (ps: seq<int>)
    ensures |ps| == n && forall i :: 0 <= i < n ==> ps[i] == i
  {
    seq(n, i => i)
  }

  /**
   * `getElementPosition` of each format: the loop over an element's
   * attributes reuses the position variable for the attribute names, so an
   * `<xf>` with any attribute reports a name, which compares as 0 with the
   * numeric target; an `<xf>` without attributes reports its index.
   */
  function XfPositions(xfs: seq<Attributes>): (ps: seq<int>)
    ensures |ps| == |xfs|
    ensures forall i :: 0 <= i < |xfs| ==> ps[i] == (if |xfs[i]| > 0 then 0 else i)
  {
    seq(|xfs|, i requires 0 <= i < |xfs| => if |xfs[i]| > 0 then 0 else i)
  }

  /** A fill inserted by `insertElementByPosition` at the position `count`, and `count` bumped. */
  function AddFill(st: StyleTables, argb: string): StyleTables
  {
    var k := InsertIndex(FillPositions(|st.fills|), st.fillCount);
    st.(fills := Insert(st.fills, k, SolidFill(argb)), fillCount := st.fillCount + 1)
  }

  /** A format inserted by `insertElementByPosition` at the position `count`, and `count` bumped. */
  function AddXf(st: StyleTables, xf: Attributes): StyleTables
  {
    var k := InsertIndex(XfPositions(st.xfs), st.xfCount);
    st.(xfs := Insert(st.xfs, k, xf), xfCount := st.xfCount + 1)
  }

  /**
   * The fill index `fill` settles on: 0 for no colour; otherwise the first
   * fill of that colour, or a new solid fill numbered by the old `count`.
   */
  function FillIndex(st: StyleTables, argb: string): (StyleTables, nat)
  {
    if argb == "" then (st, 0)
    else
      match FirstFill(st.fills, argb, 0)
      case Some(i) => (st, i)
      case None => (AddFill(st, argb), st.fillCount)
  }

  /** The format at index `i`, or no attributes at all when there is none (a missing node reads as empty). */
  function XfAt(xfs: seq<Attributes>, i: nat): Attributes
  {
    if i < |xfs| then xfs[i] else map[]
  }

  /**
   * The test `fill` applies to find a format like `model` but with fill
   * `fillIx`: the border, font, number format, parent format and
   * `applyFill` texts equal, and the fill id equal to `fillIx` as PHP
   * compares a text with a number.
   */
  predicate LikeWithFill(xf: Attributes, model: Attributes, fillIx: nat)
  {
    && Attr(xf, "borderId") == Attr(model, "borderId")
    && IntCast(Attr(xf, "fillId")) == fillIx
    && Attr(xf, "fontId") == Attr(model, "fontId")
    && Attr(xf, "numFmtId") == Attr(model, "numFmtId")
    && Attr(xf, "xfId") == Attr(model, "xfId")
    && Attr(xf, "applyFill") == Attr(model, "applyFill")
  }

  function FirstXf(xfs: seq<Attributes>, model: Attributes, fillIx: nat, from: nat): (k: Option<nat>)
    ensures k.Some? ==> from <= k.value < |xfs| && LikeWithFill(xfs[k.value], model, fillIx)
    ensures k.Some? ==> forall m :: from <= m < k.value ==> !LikeWithFill(xfs[m], model, fillIx)
    ensures k.None? ==> forall m :: from <= m < |xfs| ==> !LikeWithFill(xfs[m], model, fillIx)
    decreases |xfs| - from
  {
    if from >= |xfs| then None
    else if LikeWithFill(xfs[from], model, fillIx) then Some(from)
    else FirstXf(xfs, model, fillIx, from + 1)
  }

  /** The format `fill` creates for a cell without a style. */
  function NewXf(fillIx: nat): Attributes
  {
    map["borderId" := "0", "fillId" := NatToString(fillIx), "fontId" := "0",
        "numFmtId" := "0", "xfId" := "0", "applyFill" := "1"]
  }

  /** A copy of a format with fill `fillIx` applied. */
  function Refilled(xf: Attributes, fillIx: nat): Attributes
  {
    xf["fillId" := NatToString(fillIx)]["applyFill" := "1"]
  }

  /**
   * The style half of `fill`, for a cell whose style attribute is `s`.
   * A cell with a style (any `s` attribute at all, even `0`) whose format
   * already has the fill keeps it; otherwise it gets the first format
   * like its own with that fill, or a copy of its own with the fill applied,
   * appended and numbered by the old `count`; copying a format that does
   * not exist is a fatal error. A cell without a style gets a new plain
   * format with the fill, unless the fill is 0.
   */
  function StyleFor(st: StyleTables, s: Option<string>, fillIx: nat): (StyleTables, Result<Option<string>>)
  {
    if s.Some? then
      var cellXf := XfAt(st.xfs, IntCast(s.value));
      if IntCast(Attr(cellXf, "fillId")) == fillIx then (st, Ok(s))
      else
        match FirstXf(st.xfs, cellXf, fillIx, 0)
        case Some(k) => (st, Ok(Some(NatToString(k))))
        case None =>
          if IntCast(s.value) < |st.xfs| then
            (AddXf(st, Refilled(cellXf, fillIx)), Ok(Some(NatToString(st.xfCount))))
          else (st, Err(BrokenReference("cell format " + s.value)))
    else if fillIx != 0 then (AddXf(st, NewXf(fillIx)), Ok(Some(NatToString(st.xfCount))))
    else (st, Ok(None))
  }

  /** `fill` on the tables, for a cell with style `s` and an ARGB colour (empty for none): the new tables and the cell's new style. */
  function FillStyle(st: StyleTables, s: Option<string>, argb: string): (StyleTables, Result<Option<string>>)
  {
    var (st1, fillIx) := FillIndex(st, argb);
    StyleFor(st1, s, fillIx)
  }

  /**
   * `fill` on a sheet and the tables: the colour is converted first (a
   * falsy one means no colour), then the address is read and the cell
   * located; a missing cell is an error. The cell's new style is written
   * back and the cell returned.
   */
  function FillSpec(sd: SheetData, st: StyleTables, address: string, color: string): (SheetData, StyleTables, Result<Cell>)
  {
    var argb := if Truthy(color) then ColorW3CToExcel(color) else Ok("");
    if argb.Err? then (sd, st, Err(argb.error))
    else
      match CheckedCellAddress(address)
      case Err(e) => (sd, st, Err(e))
      case Ok(ref) =>
        var keys := LocateKeys(address);
        match CellLocation(sd.rows, ref.y, keys.0, keys.1)
        case None => (sd, st, Err(NoCell(address)))
        case Some(loc) =>
          var c := sd.rows[loc.0].cells[loc.1];
          var (st2, r) := FillStyle(st, c.s, argb.value);
          if r.Err? then (sd, st2, Err(r.error))
          else
            var d := c.(s := r.value);
            (sd.(rows := ReplaceCell(sd.rows, loc.0, loc.1, d)), st2, Ok(d))
  }

  // ---------------------------------------------------------------------
  // Reading a fill colour
  // ---------------------------------------------------------------------

  /** What `getFillColor` answers: a colour text, or the theme colour of that index (read from the theme part). */
  datatype ColorAnswer = Literal(color: string) | ThemeColor(theme: string)

  /** The foreground colour attributes of fill `i`, none when there is no such fill. */
  function FgAt(fills: seq<Fill>, i: nat): Attributes
  {
    if i < |fills| then fills[i].fg else map[]
  }

  /** An indexed colour as W3C text; an index past the palette reads as empty text, which is refused. */
  function IndexedColor(indexed: string): Result<ColorAnswer>
  {
    var i := IntCast(indexed);
    var argb := if i < |IndexedColors| then IndexedColors[i] else "";
    match ColorExcelToW3C(argb)
    case Err(e) => Err(e)
    case Ok(w3c) => Ok(Literal(w3c))
  }

  /**
   * `getFillColor` as written, on the tables: white for a cell without a
   * style; otherwise, from the foreground colour of the format's fill, its
   * `rgb` attribute verbatim, else its theme, else its indexed colour,
   * else white. An attribute counts when it is present, whatever its text.
   */
  function FillColorAsWritten(st: StyleTables, s: Option<string>): Result<ColorAnswer>
  {
    if s.None? then Ok(Literal("#FFFFFF"))
    else
      var fg := FgAt(st.fills, IntCast(Attr(XfAt(st.xfs, IntCast(s.value)), "fillId")));
      if "rgb" in fg then Ok(Literal(fg["rgb"]))
      else if "theme" in fg then Ok(ThemeColor(fg["theme"]))
      else if "indexed" in fg then IndexedColor(fg["indexed"])
      else Ok(Literal("#FFFFFF"))
  }

  /**
   * `getFillColor` as documented: every colour comes back in the W3C form,
   * so an `rgb` attribute is converted from ARGB like an indexed colour.
   */
  function FillColor(st: StyleTables, s: Option<string>): Result<ColorAnswer>
  {
    if s.None? then Ok(Literal("#FFFFFF"))
    else
      var fg := FgAt(st.fills, IntCast(Attr(XfAt(st.xfs, IntCast(s.value)), "fillId")));
      if "rgb" in fg then
        match ColorExcelToW3C(fg["rgb"])
        case Err(e) => Err(e)
        case Ok(w3c) => Ok(Literal(w3c))
      else if "theme" in fg then Ok(ThemeColor(fg["theme"]))
      else if "indexed" in fg then IndexedColor(fg["indexed"])
      else Ok(Literal("#FFFFFF"))
  }

  /** `getFillColor` on a sheet and the tables: the address is read and the cell located; a missing cell is an error. */
  function FillColorOf(sd: SheetData, st: StyleTables, address: string): Result<ColorAnswer>
  {
    match CheckedCellAddress(address)
    case Err(e) => Err(e)
    case Ok(ref) =>
      var keys := LocateKeys(address);
      match CellLocation(sd.rows, ref.y, keys.0, keys.1)
      case None => Err(NoCell(address))
      case Some(loc) => FillColor(st, sd.rows[loc.0].cells[loc.1].s)
  }

  // ---------------------------------------------------------------------
  // Properties of `fill`
  // ---------------------------------------------------------------------

  /** A new element positioned at `count` is appended when `count` is the table's length. */
  lemma AddedAtEnd(st: StyleTables, argb: string, xf: Attributes)
    requires Counted(st)
    ensures AddFill(st, argb).fills == st.fills + [SolidFill(argb)]
    ensures AddXf(st, xf).xfs == st.xfs + [xf]
    ensures Counted(AddFill(st, argb)) && Counted(AddXf(st, xf))
  {
    InsertPastAll(FillPositions(|st.fills|), st.fillCount);
    InsertPastAll(XfPositions(st.xfs), st.xfCount);
  }

  /**
   * With a colour, `fill` settles on the first fill of that colour; a fill
   * is added (at the end, counted) only when there is none, and the formats
   * are untouched.
   */
  lemma FillIndexMeaning(st: StyleTables, argb: string)
    requires Counted(st) && argb != "" && NoLowerCase(argb)
    ensures var (st1, i) := FillIndex(st, argb);
      && Counted(st1) && st1.xfs == st.xfs && i < |st1.fills|
      && Upper(Attr(st1.fills[i].fg, "rgb")) == argb
      && FirstFill(st1.fills, argb, 0) == Some(i)
      && (FirstFill(st.fills, argb, 0).Some? ==> st1 == st)
      && (FirstFill(st.fills, argb, 0).None? ==> st1.fills == st.fills + [SolidFill(argb)])
  {
    if FirstFill(st.fills, argb, 0).None? {
      AddedAtEnd(st, argb, map[]);
      var st1 := AddFill(st, argb);
      UpperOfNoLowerCase(argb);
      assert Upper(Attr(st1.fills[|st.fills|].fg, "rgb")) == argb;
      assert forall k :: 0 <= k < |st.fills| ==> st1.fills[k] == st.fills[k];
    }
  }

  lemma {:induction false} UpperOfNoLowerCase(s: string)
    requires NoLowerCase(s)
    ensures Upper(s) == s
  {
    if |s| > 0 {
      assert NoLowerCase(s[1..]) by {
        forall i | 0 <= i < |s[1..]| ensures !('a' <= s[1..][i] <= 'z') {
          assert s[1..][i] == s[i + 1];
        }
      }
      UpperOfNoLowerCase(s[1..]);
      assert s == [s[0]] + s[1..];
    }
  }

  /**
   * What a successful `fill` leaves the cell: no style only when it had
   * none and the fill is 0; otherwise a style naming an existing format
   * that has the fill. A changed style's format is either the first format
   * like the old one with that fill, or appended after all others.
   */
  lemma {:induction false} StyleForMeaning(st: StyleTables, s: Option<string>, fillIx: nat)
    requires Counted(st)
    ensures var (st2, r) := StyleFor(st, s, fillIx);
      && Counted(st2)
      && (r.Err? <==> s.Some? && IntCast(s.value) >= |st.xfs| && fillIx != 0
                          && FirstXf(st.xfs, map[], fillIx, 0).None?)
      && (r.Ok? ==> (r.value.None? <==> s.None? && fillIx == 0))
      && (r.Ok? && r.value.Some? ==> IntCast(Attr(XfAt(st2.xfs, IntCast(r.value.value)), "fillId")) == fillIx)
      && (r.Ok? && r.value != s ==> r.value.Some? && IntCast(r.value.value) < |st2.xfs|)
      && (r.Ok? && st2 != st ==> st2.xfs == st.xfs + [st2.xfs[|st.xfs|]] && st2.fills == st.fills)
  {
    var (st2, r) := StyleFor(st, s, fillIx);
    IntCastOfNatToString(st.xfCount);
    IntCastOfNatToString(fillIx);
    if s.Some? {
      var cellXf := XfAt(st.xfs, IntCast(s.value));
      if IntCast(Attr(cellXf, "fillId")) != fillIx {
        match FirstXf(st.xfs, cellXf, fillIx, 0)
        case Some(k) =>
          IntCastOfNatToString(k);
        case None =>
          if IntCast(s.value) < |st.xfs| {
            AddedAtEnd(st, "", Refilled(cellXf, fillIx));
          }
      }
    } else if fillIx != 0 {
      AddedAtEnd(st, "", NewXf(fillIx));
    }
  }

  /**
   * Filling a cell twice with the same colour changes nothing the second
   * time: neither table grows and the style stays.
   */
  lemma FillIdempotent(st: StyleTables, s: Option<string>, argb: string)
    requires Counted(st) && (argb == "" || NoLowerCase(argb))
    requires FillStyle(st, s, argb).1.Ok?
    ensures var (st2, r) := FillStyle(st, s, argb);
      FillStyle(st2, r.value, argb) == (st2, Ok(r.value))
  {
    var (st1, fillIx) := FillIndex(st, argb);
    if argb != "" {
      FillIndexMeaning(st, argb);
    }
    StyleForMeaning(st1, s, fillIx);
    var (st2, r) := StyleFor(st1, s, fillIx);
    if argb != "" {
      assert FirstFill(st2.fills, argb, 0) == Some(fillIx);
    }
    assert FillIndex(st2, argb) == (st2, fillIx);
  }

  /**
   * After a successful `fill` with a colour, a styled cell's format has a
   * fill whose foreground `rgb` upper-cases to that colour.
   */
  lemma FilledStyleHasColor(st: StyleTables, s: Option<string>, argb: string)
    requires Counted(st) && argb != "" && NoLowerCase(argb)
    requires FillStyle(st, s, argb).1.Ok? && FillStyle(st, s, argb).1.value.Some?
    ensures var (st2, r) := FillStyle(st, s, argb);
      Upper(Attr(FgAt(st2.fills, IntCast(Attr(XfAt(st2.xfs, IntCast(r.value.value)), "fillId"))), "rgb")) == argb
  {
    FillIndexMeaning(st, argb);
    var (st1, fillIx) := FillIndex(st, argb);
    StyleForMeaning(st1, s, fillIx);
  }

  /**
   * After a successful `fill` with `#RRGGBB`, the colour read back from a
   * styled cell is `#RRGGBB` upper-cased: the documented round trip.
   */
  lemma FillThenColor(st: StyleTables, s: Option<string>, rgb: string)
    requires Counted(st) && |rgb| == 6 && AllHex(rgb)
    requires FillStyle(st, s, "FF" + Upper(rgb)).1.Ok? && FillStyle(st, s, "FF" + Upper(rgb)).1.value.Some?
    ensures ColorW3CToExcel("#" + rgb) == Ok("FF" + Upper(rgb))
    ensures var (st2, r) := FillStyle(st, s, "FF" + Upper(rgb));
      FillColor(st2, r.value) == Ok(Literal("#" + Upper(rgb)))
  {
    W3CRoundTrip(rgb);
    var argb := "FF" + Upper(rgb);
    OpaqueColor(rgb);
    FilledStyleHasColor(st, s, argb);
    var (st2, r) := FillStyle(st, s, argb);
    var fg := FgAt(st2.fills, IntCast(Attr(XfAt(st2.xfs, IntCast(r.value.value)), "fillId")));
    FilledColorIs(fg, argb);
    assert argb[2..] == Upper(rgb);
  }

  /**
   * `getFillColor` as written returns the stored ARGB text: after a `fill`
   * with `#RRGGBB`, a styled cell reads back as the eight-digit
   * `FFRRGGBB`, never as the documented `#RRGGBB`.
   */
  lemma FillThenColorAsWritten(st: StyleTables, s: Option<string>, rgb: string)
    requires Counted(st) && |rgb| == 6 && AllHex(rgb)
    requires FillStyle(st, s, "FF" + Upper(rgb)).1.Ok? && FillStyle(st, s, "FF" + Upper(rgb)).1.value.Some?
    ensures var (st2, r) := FillStyle(st, s, "FF" + Upper(rgb));
      var answer := FillColorAsWritten(st2, r.value);
      && answer.Ok? && answer.value.Literal?
      && Upper(answer.value.color) == "FF" + Upper(rgb)
      && answer.value.color != "#" + Upper(rgb)
  {
    var argb := "FF" + Upper(rgb);
    OpaqueColor(rgb);
    FilledStyleHasColor(st, s, argb);
    var (st2, r) := FillStyle(st, s, argb);
    var fg := FgAt(st2.fills, IntCast(Attr(XfAt(st2.xfs, IntCast(r.value.value)), "fillId")));
    FilledColorIs(fg, argb);
    assert |fg["rgb"]| == 8;
  }

  /** `FF` followed by six upper-cased hex digits is an opaque ARGB colour without lower case. */
  lemma OpaqueColor(rgb: string)
    requires |rgb| == 6 && AllHex(rgb)
    ensures var argb := "FF" + Upper(rgb);
      |argb| == 8 && argb[..2] == "FF" && AllHex(argb) && NoLowerCase(argb) && argb != ""
  {
    var argb := "FF" + Upper(rgb);
    UpperHex(rgb);
    assert forall i :: 0 <= i < |argb| ==> argb[i] == if i < 2 then 'F' else Upper(rgb)[i - 2];
  }

  /** A foreground whose `rgb` upper-cases to an opaque ARGB colour has exactly that `rgb`, up to case. */
  lemma FilledColorIs(fg: Attributes, argb: string)
    requires Upper(Attr(fg, "rgb")) == argb && |argb| == 8 && argb[..2] == "FF" && AllHex(argb)
    ensures "rgb" in fg && |fg["rgb"]| == 8
    ensures ColorExcelToW3C(fg["rgb"]) == Ok("#" + argb[2..])
  {
    var t := Attr(fg, "rgb");
    assert |t| == 8;
    assert AllHex(t) by {
      forall i | 0 <= i < |t| ensures IsHex(t[i]) {
        assert Upper(t)[i] == UpperChar(t[i]);
      }
    }
    ExcelRoundTripDropsAlpha(t);
    UpperSuffix(t, 2);
    UpperHex(argb[2..]);
    UpperOfNoLowerCase(argb[2..]);
  }

  lemma {:induction false} UpperSuffix(t: string, k: nat)
    requires k <= |t|
    ensures Upper(t[k..]) == Upper(t)[k..]
  {
    assert forall i :: 0 <= i < |t| - k ==> Upper(t[k..])[i] == UpperChar(t[k + i]) == Upper(t)[k..][i];
  }

  /** No colour targets fill 0: a cell without a style stays without one, and nothing is added. */
  lemma NoColorTargetsFillZero(st: StyleTables)
    ensures FillStyle(st, None, "") == (st, Ok(None))
    ensures FillIndex(st, "").1 == 0
  {
  }

  /** A colour not in the `#RRGGBB` form is refused before anything changes. */
  lemma BadColorChangesNothing(sd: SheetData, st: StyleTables, address: string, color: string)
    requires Truthy(color) && !HasW3CColor(color)
    ensures FillSpec(sd, st, address, color) == (sd, st, Err(BadColor(color)))
  {
  }

  /** On a sheet, filling a cell twice with the same colour leaves the sheet and the tables as the first fill left them. */
  lemma FillCellIdempotent(sd: SheetData, st: StyleTables, address: string, color: string)
    requires Counted(st)
    requires FillSpec(sd, st, address, color).2.Ok?
    ensures var (sd2, st2, r) := FillSpec(sd, st, address, color);
      FillSpec(sd2, st2, address, color) == (sd2, st2, r)
  {
    var argb := if Truthy(color) then ColorW3CToExcel(color) else Ok("");
    var ref := CheckedCellAddress(address).value;
    var keys := LocateKeys(address);
    var loc := CellLocation(sd.rows, ref.y, keys.0, keys.1).value;
    var c := sd.rows[loc.0].cells[loc.1];
    FillIdempotent(st, c.s, argb.value);
    var (st2, r) := FillStyle(st, c.s, argb.value);
    var d := c.(s := r.value);
    ReplaceCellKeepsLocation(sd.rows, loc.0, loc.1, d, ref.y, keys.0, keys.1);
    var rows2 := ReplaceCell(sd.rows, loc.0, loc.1, d);
    assert rows2[loc.0].cells[loc.1] == d;
    assert rows2[loc.0].cells[loc.1 := d] == rows2[loc.0].cells;
    assert ReplaceCell(rows2, loc.0, loc.1, d) == rows2;
    assert d.(s := r.value) == d;
  }

  // ---------------------------------------------------------------------
  // The styles part as an object
  // ---------------------------------------------------------------------

  class Styles {
    var fills: seq<Fill>
    var fillCount: nat
    var xfs: seq<Attributes>
    var xfCount: nat

    function State(): StyleTables
      reads this
    {
      StyleTables(fills, fillCount, xfs, xfCount)
    }

    constructor (st: StyleTables)
      ensures State() == st
    {
      fills, fillCount, xfs, xfCount := st.fills, st.fillCount, st.xfs, st.xfCount;
    }

    /** The search loop of `fill` over the fills. */
    method FindFill(argb: string) returns (i: Option<nat>)
      ensures i == FirstFill(fills, argb, 0)
    {
      var ix := 0;
      while ix < |fills|
        invariant 0 <= ix <= |fills|
        invariant FirstFill(fills, argb, 0) == FirstFill(fills, argb, ix)
      {
        if Upper(Attr(fills[ix].fg, "rgb")) == argb {
          return Some(ix);
        }
        ix := ix + 1;
      }
      return None;
    }

    /** The search loop of `fill` over the formats. */
    method FindXf(model: Attributes, fillIx: nat) returns (k: Option<nat>)
      ensures k == FirstXf(xfs, model, fillIx, 0)
    {
      var ix := 0;
      while ix < |xfs|
        invariant 0 <= ix <= |xfs|
        invariant FirstXf(xfs, model, fillIx, 0) == FirstXf(xfs, model, fillIx, ix)
      {
        if LikeWithFill(xfs[ix], model, fillIx) {
          return Some(ix);
        }
        ix := ix + 1;
      }
      return None;
    }

    /** A solid fill inserted at position `count`; returns the index `fill` then uses, the old `count`. */
    method AppendFill(argb: string) returns (ix: nat)
      modifies this
      ensures ix == old(fillCount)
      ensures State() == AddFill(old(State()), argb)
    {
      var k, _ := InsertPosition(FillPositions(|fills|), fillCount);
      fills := Insert(fills, k, SolidFill(argb));
      ix := fillCount;
      fillCount := fillCount + 1;
    }

    /** A format inserted at position `count`; returns the index `fill` then uses, the old `count`. */
    method AppendXf(xf: Attributes) returns (ix: nat)
      modifies this
      ensures ix == old(xfCount)
      ensures State() == AddXf(old(State()), xf)
    {
      var k, _ := InsertPosition(XfPositions(xfs), xfCount);
      xfs := Insert(xfs, k, xf);
      ix := xfCount;
      xfCount := xfCount + 1;
    }

    /** The index of the fill with colour `argb`, added when there is none; 0 for no colour. */
    method FillIndexOf(argb: string) returns (fillIx: nat)
      modifies this
      ensures (State(), fillIx) == FillIndex(old(State()), argb)
    {
      fillIx := 0;
      if argb != "" {
        var found := FindFill(argb);
        if found.Some? {
          fillIx := found.value;
        } else {
          fillIx := AppendFill(argb);
        }
      }
    }

    /** The new style of a cell with style `s` once it takes fill `fillIx`. */
    method StyleCell(s: Option<string>, fillIx: nat) returns (r: Result<Option<string>>)
      modifies this
      ensures (State(), r) == StyleFor(old(State()), s, fillIx)
    {
      r := Ok(s);
      if s.Some? {
        var cellXf := XfAt(xfs, IntCast(s.value));
        if IntCast(Attr(cellXf, "fillId")) != fillIx {
          var found := FindXf(cellXf, fillIx);
          if found.Some? {
            r := Ok(Some(NatToString(found.value)));
          } else if IntCast(s.value) < |xfs| {
            var ix := AppendXf(Refilled(cellXf, fillIx));
            r := Ok(Some(NatToString(ix)));
          } else {
            r := Err(BrokenReference("cell format " + s.value));
          }
        }
      } else if fillIx != 0 {
        var ix := AppendXf(NewXf(fillIx));
        r := Ok(Some(NatToString(ix)));
      }
    }

    /** `fill`: returns the cell with its new style. */
    method Fill(sheet: Worksheet, address: string, color: string) returns (r: Result<Cell>)
      modifies this, sheet
      ensures (sheet.State(), State(), r) == FillSpec(old(sheet.State()), old(State()), address, color)
    {
      hide FillIndex, StyleFor, ColorW3CToExcel, CheckedCellAddress, LocateKeys, CellLocation, ReplaceCell;
      var argb := "";
      if Truthy(color) {
        var converted := ColorW3CToExcel(color);
        if converted.Err? {
          return Err(converted.error);
        }
        argb := converted.value;
      }
      var ref := CheckedCellAddress(address);
      if ref.Err? {
        return Err(ref.error);
      }
      var keys := LocateKeys(address);
      var loc := sheet.LocateCell(ref.value.y, keys.0, keys.1);
      if loc.None? {
        return Err(NoCell(address));
      }
      var (i, j) := loc.value;
      var c := sheet.rows[i].cells[j];
      var fillIx := FillIndexOf(argb);
      var style := StyleCell(c.s, fillIx);
      if style.Err? {
        return Err(style.error);
      }
      var d := c.(s := style.value);
      sheet.SetCell(i, j, d);
      return Ok(d);
    }

    /** `getFillColor`, answering in the W3C form. */
    method GetFillColor(sheet: Worksheet, address: string) returns (r: Result<ColorAnswer>)
      ensures r == FillColorOf(sheet.State(), State(), address)
    {
      var ref := CheckedCellAddress(address);
      if ref.Err? {
        return Err(ref.error);
      }
      var keys := LocateKeys(address);
      var loc := sheet.LocateCell(ref.value.y, keys.0, keys.1);
      if loc.None? {
        return Err(NoCell(address));
      }
      r := FillColor(State(), sheet.rows[loc.value.0].cells[loc.value.1].s);
    }
  }
}
