/**
 * The address algebra: column letters, `A1` and `R1C1` cell addresses,
 * rectangular ranges and the test whether a cell lies in a list of ranges.
 * Everything here is pure.
 */
module Address {
  import opened Common

  // ---------------------------------------------------------------------
  // Column letters: bijective base 26, no zero digit (A = 1, Z = 26, AA = 27)
  // ---------------------------------------------------------------------

  /** `index2letter`: the column number written in letters; 0 gives "". */
  function ColumnLetters(n: nat): (s: string)
    ensures AllUpperLetters(s)
    ensures |s| == 0 <==> n == 0
  {
    if n == 0 then ""
    else
      var rem := if n % 26 == 0 then 26 else n % 26;
      ColumnLetters(n / 26 - (if n % 26 == 0 then 1 else 0)) + [('A' as int + rem - 1) as char]
  }

  /** Value of one letter digit, case-insensitive: A = 1 .. Z = 26. */
  function LetterValue(c: char): int
  {
    UpperChar(c) as int - 'A' as int + 1
  }

  /**
   * `letter2index`: the column number the letters denote. The source sums
   * digit * 26^position from the right; this is the same sum in Horner form.
   */
  function LetterIndex(s: string): (n: int)
    ensures AllLetters(s) ==> n >= 0
    ensures AllLetters(s) && |s| > 0 ==> n >= 1
  {
    if |s| == 0 then 0 else LetterIndex(s[..|s| - 1]) * 26 + LetterValue(s[|s| - 1])
  }

  /** Reading back the letters of a column gives the column. */
  lemma {:induction false} LetterIndexOfColumnLetters(n: nat)
    ensures LetterIndex(ColumnLetters(n)) == n
  {
    if n > 0 {
      var q := n / 26 - (if n % 26 == 0 then 1 else 0);
      var s := ColumnLetters(n);
      assert s[..|s| - 1] == ColumnLetters(q);
      LetterIndexOfColumnLetters(q);
    }
  }

  /** Every non-empty word of upper-case letters is the letters of exactly one column. */
  lemma {:induction false} ColumnLettersOfLetterIndex(s: string)
    requires AllUpperLetters(s)
    ensures LetterIndex(s) >= 0
    ensures ColumnLetters(LetterIndex(s)) == s
  {
    if |s| > 0 {
      var p := s[..|s| - 1];
      ColumnLettersOfLetterIndex(p);
      var n := LetterIndex(s);
      var v := LetterValue(s[|s| - 1]);
      assert 1 <= v <= 26;
      assert n == LetterIndex(p) * 26 + v;
      if v == 26 {
        assert n % 26 == 0 && n / 26 - 1 == LetterIndex(p);
      } else {
        assert n % 26 == v && n / 26 == LetterIndex(p);
      }
      assert p + [s[|s| - 1]] == s;
    }
  }

  /** The codec on the columns the library documents. */
  lemma ColumnLetterExamples()
    ensures ColumnLetters(1) == "A" && ColumnLetters(26) == "Z"
    ensures ColumnLetters(27) == "AA" && ColumnLetters(52) == "AZ"
    ensures ColumnLetters(53) == "BA" && ColumnLetters(702) == "ZZ"
  {
  }

  // ---------------------------------------------------------------------
  // Cell addresses
  // ---------------------------------------------------------------------

  /** Column `x`, row `y` and the address in both notations. */
  datatype CellRef = CellRef(x: nat, y: nat, a1: string, r1c1: string)

  /** The `A1` rendering the library builds: `index2letter($x).$y`. */
  function A1Text(x: nat, y: nat): string
  {
    ColumnLetters(x) + NatToString(y)
  }

  /** The `R1C1` rendering the library builds: `"R{$y}C{$x}"`. */
  function R1C1Text(x: nat, y: nat): string
  {
    "R" + NatToString(y) + "C" + NatToString(x)
  }

  /** Length of the run of letters at the start of `s`. */
  function LetterPrefixLength(s: string): (n: nat)
    ensures n <= |s|
    ensures AllLetters(s[..n])
    ensures n < |s| ==> !IsLetter(s[n])
  {
    if |s| == 0 || !IsLetter(s[0]) then 0
    else
      var k := LetterPrefixLength(s[1..]);
      assert s[..k + 1] == [s[0]] + s[1..][..k];
      k + 1
  }

  /** `^R([0-9]+)C([0-9]+)$`, case-insensitive: the row digits and the column digits. */
  function MatchR1C1(s: string): (m: Option<(string, string)>)
    ensures m.Some? ==> AllDigits(m.value.0) && AllDigits(m.value.1)
    ensures m.Some? ==> |m.value.0| > 0 && |m.value.1| > 0
  {
    if |s| < 4 || (s[0] != 'R' && s[0] != 'r') then None
    else
      var k := DigitPrefixLength(s[1..]);
      if k == 0 || 1 + k + 1 >= |s| || (s[1 + k] != 'C' && s[1 + k] != 'c') then None
      else if !AllDigits(s[2 + k..]) then None
      else
        assert s[1..1 + k] == s[1..][..k];
        Some((s[1..1 + k], s[2 + k..]))
  }

  /** `^([a-z]+)([0-9]+)$`, case-insensitive: the column letters and the row digits. */
  function MatchA1(s: string): (m: Option<(string, string)>)
    ensures m.Some? ==> |m.value.0| > 0 && AllLetters(m.value.0) && AllDigits(m.value.1)
    ensures m.Some? ==> |m.value.1| > 0
  {
    var k := LetterPrefixLength(s);
    if k == 0 || k == |s| || !AllDigits(s[k..]) then None
    else Some((s[..k], s[k..]))
  }

  /**
   * `cellAddress`, as written: `R<row>C<col>` is tried first, then
   * `<letters><digits>`; anything else is an invalid address. The notation
   * the text was given in is returned unchanged; the other one is built.
   * The row digits are kept as written (leading zeros included).
   */
  function CellAddress(s: string): (r: Result<CellRef>)
    ensures r.Err? <==> MatchR1C1(s).None? && MatchA1(s).None?
    ensures r.Ok? && MatchR1C1(s).None? ==> r.value.a1 == s && r.value.x >= 1
    ensures r.Ok? && MatchR1C1(s).Some? ==> r.value.r1c1 == s
  {
    match MatchR1C1(s)
    case Some(m) =>
      var x := DigitsValue(m.1);
      Ok(CellRef(x, DigitsValue(m.0), ColumnLetters(x) + m.0, s))
    case None =>
      match MatchA1(s)
      case Some(m) =>
        var x := LetterIndex(m.0);
        Ok(CellRef(x, DigitsValue(m.1), s, "R" + m.1 + "C" + NatToString(x)))
      case None => Err(InvalidAddress(s))
  }

  /**
   * As written, `cellAddress` accepts column 0 in `R1C1` notation, and the
   * `A1` form it then returns is only the row digits, which is no address.
   */
  lemma ColumnZeroLosesA1Form()
    ensures CellAddress("R5C0") == Ok(CellRef(0, 5, "5", "R5C0"))
    ensures CellAddress("5").Err?
  {
    assert "R5C0"[1..] == "5C0";
    assert DigitPrefixLength("C0") == 0;
    assert DigitPrefixLength("5C0") == 1;
    assert "R5C0"[1..2] == "5" && "R5C0"[3..] == "0";
    assert MatchR1C1("R5C0") == Some(("5", "0"));
    assert DigitsValue("0") == 0;
    assert DigitsValue("5") == 5;
    assert ColumnLetters(0) + "5" == "5";
    assert MatchR1C1("5") == None;
    assert LetterPrefixLength("5") == 0;
  }

  /**
   * `cellAddress` with column 0 refused, as it evidently is meant to be:
   * every address it accepts has both notations parse back to the same cell.
   */
  function CheckedCellAddress(s: string): (r: Result<CellRef>)
    ensures r.Ok? <==> CellAddress(s).Ok? && CellAddress(s).value.x >= 1
    ensures r.Ok? ==> r == CellAddress(s)
  {
    match CellAddress(s)
    case Ok(c) => if c.x == 0 then Err(InvalidAddress(s)) else Ok(c)
    case Err(e) => Err(e)
  }

  /** Every address the corrected reading accepts has both notations parse back to the same cell. */
  lemma CheckedCellAddressReparses(s: string)
    requires CheckedCellAddress(s).Ok?
    ensures Reparses(CheckedCellAddress(s).value)
  {
    FormsReparse(s);
  }

  /** Both notations of `c` name the cell `c` names. */
  predicate Reparses(c: CellRef)
  {
    && CellAddress(c.a1).Ok? && CellAddress(c.a1).value.x == c.x && CellAddress(c.a1).value.y == c.y
    && CellAddress(c.r1c1).Ok? && CellAddress(c.r1c1).value.x == c.x && CellAddress(c.r1c1).value.y == c.y
  }

  lemma {:induction false} DigitPrefixOfConcat(d: string, rest: string)
    requires AllDigits(d)
    requires |rest| == 0 || !IsDigit(rest[0])
    ensures DigitPrefixLength(d + rest) == |d|
  {
    var s := d + rest;
    assert forall i :: 0 <= i < |d| ==> s[i] == d[i];
    assert |rest| > 0 ==> s[|d|] == rest[0];
    var n := DigitPrefixLength(s);
    assert forall i :: 0 <= i < n ==> s[..n][i] == s[i];
  }

  lemma {:induction false} LetterPrefixOfConcat(l: string, rest: string)
    requires AllLetters(l)
    requires |rest| == 0 || !IsLetter(rest[0])
    ensures LetterPrefixLength(l + rest) == |l|
  {
    var s := l + rest;
    assert forall i :: 0 <= i < |l| ==> s[i] == l[i];
    assert |rest| > 0 ==> s[|l|] == rest[0];
    var n := LetterPrefixLength(s);
    assert forall i :: 0 <= i < n ==> s[..n][i] == s[i];
  }

  /** Letters followed by a non-empty run of digits is `A1` text and never `R1C1` text. */
  lemma MatchLettersDigits(l: string, d: string)
    requires |l| > 0 && AllUpperLetters(l)
    requires |d| > 0 && AllDigits(d)
    ensures MatchR1C1(l + d).None?
    ensures MatchA1(l + d) == Some((l, d))
  {
    var s := l + d;
    LetterPrefixOfConcat(l, d);
    assert s[..|l|] == l && s[|l|..] == d;
    if |s| >= 4 && s[0] == 'R' {
      var k := DigitPrefixLength(s[1..]);
      if |l| > 1 {
        assert s[1..][0] == l[1];
        assert k == 0;
      } else {
        assert s[1..] == d;
        DigitPrefixOfConcat(d, "");
        assert d + "" == d;
        assert k == |d| && 1 + k + 1 > |s|;
      }
    }
  }

  /** `R<digits>C<digits>` is `R1C1` text with those digit runs. */
  lemma MatchRowCol(rd: string, cd: string)
    requires |rd| > 0 && AllDigits(rd)
    requires |cd| > 0 && AllDigits(cd)
    ensures MatchR1C1("R" + rd + "C" + cd) == Some((rd, cd))
  {
    var s := "R" + rd + "C" + cd;
    assert s[1..] == rd + ("C" + cd);
    DigitPrefixOfConcat(rd, "C" + cd);
    assert s[1..1 + |rd|] == rd;
    assert s[2 + |rd|..] == cd;
  }

  /** What `Reparses` says, for every address `cellAddress` accepts with a column of at least 1. */
  lemma FormsReparse(s: string)
    requires CellAddress(s).Ok? && CellAddress(s).value.x >= 1
    ensures Reparses(CellAddress(s).value)
  {
    var c := CellAddress(s).value;
    match MatchR1C1(s)
    case Some(m) =>
      MatchLettersDigits(ColumnLetters(c.x), m.0);
      LetterIndexOfColumnLetters(c.x);
    case None =>
      var m := MatchA1(s).value;
      MatchRowCol(m.1, NatToString(c.x));
      DigitsOfNatToString(c.x);
  }

  /** Reading the library's own `A1` rendering gives back the cell and both notations. */
  lemma CellAddressOfA1Text(x: nat, y: nat)
    requires x >= 1
    ensures CellAddress(A1Text(x, y)) == Ok(CellRef(x, y, A1Text(x, y), R1C1Text(x, y)))
  {
    MatchLettersDigits(ColumnLetters(x), NatToString(y));
    LetterIndexOfColumnLetters(x);
    DigitsOfNatToString(y);
  }

  /** Reading the library's own `R1C1` rendering gives back the cell and both notations. */
  lemma CellAddressOfR1C1Text(x: nat, y: nat)
    requires x >= 1
    ensures CellAddress(R1C1Text(x, y)) == Ok(CellRef(x, y, A1Text(x, y), R1C1Text(x, y)))
  {
    MatchRowCol(NatToString(y), NatToString(x));
    DigitsOfNatToString(x);
    DigitsOfNatToString(y);
  }

  // ---------------------------------------------------------------------
  // Ranges
  // ---------------------------------------------------------------------

  /** `[[xmin, xmax], [ymin, ymax]]`. */
  datatype Area = Area(xMin: nat, xMax: nat, yMin: nat, yMax: nat)

  /** PHP truthiness of a string: neither "" nor "0". */
  predicate Truthy(s: string) { s != "" && s != "0" }

  function Min(a: nat, b: nat): nat { if a <= b then a else b }

  function Max(a: nat, b: nat): nat { if a <= b then b else a }

  /**
   * `getRangeArea`: the rectangle of `cell1[:cell2]`, bounds sorted. A missing
   * or falsy second corner collapses the range onto the first; pieces after a
   * second colon are ignored. Corners are read by `cellAddress` as written,
   * so a column 0 (`R5C0`) is read as such.
   */
  function RangeArea(range: string): (r: Result<Area>)
    ensures r.Ok? ==> r.value.xMin <= r.value.xMax && r.value.yMin <= r.value.yMax
  {
    var parts := Split(range, ':');
    match CellAddress(parts[0])
    case Err(e) => Err(e)
    case Ok(a) =>
      if |parts| > 1 && Truthy(parts[1]) then
        match CellAddress(parts[1])
        case Err(e) => Err(e)
        case Ok(b) => Ok(Area(Min(a.x, b.x), Max(a.x, b.x), Min(a.y, b.y), Max(a.y, b.y)))
      else Ok(Area(a.x, a.x, a.y, a.y))
  }

  /** The text `A1:B2` of a range with the given corners. */
  function RangeText(x1: nat, y1: nat, x2: nat, y2: nat): string
  {
    A1Text(x1, y1) + ":" + A1Text(x2, y2)
  }

  /** A range given by two corners, in either order, is their normalised rectangle. */
  lemma RangeAreaOfCorners(x1: nat, y1: nat, x2: nat, y2: nat)
    requires x1 >= 1 && x2 >= 1
    ensures RangeArea(RangeText(x1, y1, x2, y2))
         == Ok(Area(Min(x1, x2), Max(x1, x2), Min(y1, y2), Max(y1, y2)))
  {
    SplitRangeText(x1, y1, x2, y2);
    CheckedOfA1Text(x1, y1);
    CheckedOfA1Text(x2, y2);
  }

  lemma SplitRangeText(x1: nat, y1: nat, x2: nat, y2: nat)
    ensures Split(RangeText(x1, y1, x2, y2), ':') == [A1Text(x1, y1), A1Text(x2, y2)]
  {
    var a := A1Text(x1, y1);
    var b := A1Text(x2, y2);
    NoColonInA1Text(x1, y1);
    NoColonInA1Text(x2, y2);
    SplitAtSeparator(a, b, ':');
    SplitWithoutSeparator(b, ':');
    assert RangeText(x1, y1, x2, y2) == a + [':'] + b;
  }

  /** The corrected reading accepts the library's own `A1` rendering, which is never falsy. */
  lemma CheckedOfA1Text(x: nat, y: nat)
    requires x >= 1
    ensures CheckedCellAddress(A1Text(x, y)) == Ok(CellRef(x, y, A1Text(x, y), R1C1Text(x, y)))
    ensures Truthy(A1Text(x, y))
  {
    CellAddressOfA1Text(x, y);
    assert IsUpperLetter(A1Text(x, y)[0]);
  }

  /** A range without a colon is the single cell it names. */
  lemma RangeAreaOfCell(x: nat, y: nat)
    requires x >= 1
    ensures RangeArea(A1Text(x, y)) == Ok(Area(x, x, y, y))
  {
    NoColonInA1Text(x, y);
    SplitWithoutSeparator(A1Text(x, y), ':');
    CellAddressOfA1Text(x, y);
  }

  /** A range naming column 0 is read as written: a rectangle in column 0. */
  lemma RangeAreaOfColumnZero()
    ensures RangeArea("R5C0") == Ok(Area(0, 0, 5, 5))
  {
    SplitWithoutSeparator("R5C0", ':');
  }

  lemma NoColonInA1Text(x: nat, y: nat)
    ensures forall i :: 0 <= i < |A1Text(x, y)| ==> A1Text(x, y)[i] != ':' && A1Text(x, y)[i] != ' '
  {
    var l := ColumnLetters(x);
    var d := NatToString(y);
    forall i | 0 <= i < |A1Text(x, y)|
      ensures A1Text(x, y)[i] != ':' && A1Text(x, y)[i] != ' '
    {
      if i < |l| { assert A1Text(x, y)[i] == l[i]; } else { assert A1Text(x, y)[i] == d[i - |l|]; }
    }
  }

  predicate Contains(a: Area, x: nat, y: nat)
  {
    a.xMin <= x <= a.xMax && a.yMin <= y <= a.yMax
  }

  /** The scan of `checkAddressInRange` over the space-separated ranges: the first hit wins, an unreadable range before it throws. */
  function AnyRangeContains(ranges: seq<string>, x: nat, y: nat): Result<bool>
  {
    FirstContaining(Areas(ranges), x, y)
  }

  /** Each range's area, or why it cannot be read. */
  function Areas(ranges: seq<string>): (areas: seq<Result<Area>>)
    ensures |areas| == |ranges|
  {
    if |ranges| == 0 then [] else [RangeArea(ranges[0])] + Areas(ranges[1..])
  }

  lemma {:induction false} AreaAt(ranges: seq<string>, i: nat)
    requires i < |ranges|
    ensures Areas(ranges)[i] == RangeArea(ranges[i])
  {
    if i > 0 {
      AreaAt(ranges[1..], i - 1);
    }
  }

  /** The scan over areas already read: the first containing one wins, an error before it is reported. */
  function FirstContaining(areas: seq<Result<Area>>, x: nat, y: nat): Result<bool>
  {
    if |areas| == 0 then Ok(false)
    else
      match areas[0]
      case Err(e) => Err(e)
      case Ok(a) => if Contains(a, x, y) then Ok(true) else FirstContaining(areas[1..], x, y)
  }

  /** `checkAddressInRange`, the needle read by `cellAddress` as written. */
  function AddressInRange(needle: string, haystack: string): Result<bool>
  {
    match CellAddress(needle)
    case Err(e) => Err(e)
    case Ok(c) => AnyRangeContains(Split(haystack, ' '), c.x, c.y)
  }

  /** The areas before index `i` were all read. */
  predicate ReadBefore(areas: seq<Result<Area>>, i: int)
    requires 0 <= i <= |areas|
  {
    forall j :: 0 <= j < i ==> areas[j].Ok?
  }

  /**
   * The cell is found iff some area contains it and every area before that
   * one was read; it is reported absent iff every area was read and none
   * contains it.
   */
  lemma {:induction false} FirstContainingMeaning(areas: seq<Result<Area>>, x: nat, y: nat)
    ensures FirstContaining(areas, x, y) == Ok(true) <==>
      exists i :: 0 <= i < |areas| && ReadBefore(areas, i) && areas[i].Ok? && Contains(areas[i].value, x, y)
    ensures FirstContaining(areas, x, y) == Ok(false) <==>
      forall i :: 0 <= i < |areas| ==> areas[i].Ok? && !Contains(areas[i].value, x, y)
  {
    if |areas| > 0 {
      var tail := areas[1..];
      FirstContainingMeaning(tail, x, y);
      match areas[0]
      case Err(e) =>
      case Ok(a) =>
        if !Contains(a, x, y) {
          if FirstContaining(tail, x, y) == Ok(true) {
            var i :| 0 <= i < |tail| && ReadBefore(tail, i) && tail[i].Ok? && Contains(tail[i].value, x, y);
            assert ReadBefore(areas, i + 1) && areas[i + 1] == tail[i];
          }
          if exists i :: 0 <= i < |areas| && ReadBefore(areas, i) && areas[i].Ok? && Contains(areas[i].value, x, y) {
            var i :| 0 <= i < |areas| && ReadBefore(areas, i) && areas[i].Ok? && Contains(areas[i].value, x, y);
            assert i > 0 && ReadBefore(tail, i - 1) && tail[i - 1] == areas[i];
          }
        } else {
          assert ReadBefore(areas, 0);
        }
    }
  }

  /**
   * A cell checked against one range the library could have written is found
   * exactly when it lies in that range's rectangle.
   */
  lemma CellInOneRange(x: nat, y: nat, x1: nat, y1: nat, x2: nat, y2: nat)
    requires x >= 1 && x1 >= 1 && x2 >= 1
    ensures AddressInRange(A1Text(x, y), RangeText(x1, y1, x2, y2))
         == Ok(Min(x1, x2) <= x <= Max(x1, x2) && Min(y1, y2) <= y <= Max(y1, y2))
  {
    var t := RangeText(x1, y1, x2, y2);
    CheckedOfA1Text(x, y);
    NoSpaceInRangeText(x1, y1, x2, y2);
    RangeAreaOfCorners(x1, y1, x2, y2);
    OneRangeScan(t, x, y);
  }

  /** A haystack of one range is that range's test. */
  lemma OneRangeScan(t: string, x: nat, y: nat)
    requires forall i :: 0 <= i < |t| ==> t[i] != ' '
    ensures AnyRangeContains(Split(t, ' '), x, y)
         == match RangeArea(t) case Err(e) => Err(e) case Ok(a) => Ok(Contains(a, x, y))
  {
    SplitWithoutSeparator(t, ' ');
    var areas := Areas([t]);
    assert areas == [RangeArea(t)];
    assert AnyRangeContains(Split(t, ' '), x, y) == FirstContaining(areas, x, y);
    assert FirstContaining(areas[1..], x, y) == Ok(false) by { assert areas[1..] == []; }
  }

  lemma NoSpaceInRangeText(x1: nat, y1: nat, x2: nat, y2: nat)
    ensures forall i :: 0 <= i < |RangeText(x1, y1, x2, y2)| ==> RangeText(x1, y1, x2, y2)[i] != ' '
  {
    var a := A1Text(x1, y1);
    var b := A1Text(x2, y2);
    NoColonInA1Text(x1, y1);
    NoColonInA1Text(x2, y2);
    var t := RangeText(x1, y1, x2, y2);
    forall i | 0 <= i < |t| ensures t[i] != ' ' {
      if i < |a| { assert t[i] == a[i]; }
      else if i > |a| { assert t[i] == b[i - |a| - 1]; }
    }
  }
}
