/**
 * Colour codecs between the W3C `#RRGGBB` form and the OpenXML `AARRGGBB`
 * form, and the legacy indexed palette of SpreadsheetML.
 */
module Colors {
  import opened Common

  predicate IsHex(c: char) { IsDigit(c) || 'A' <= c <= 'F' || 'a' <= c <= 'f' }

  predicate AllHex(s: string) { forall i :: 0 <= i < |s| ==> IsHex(s[i]) }

  /** Text with no lower-case ASCII letter. */
  predicate NoLowerCase(s: string) { forall i :: 0 <= i < |s| ==> !('a' <= s[i] <= 'z') }

  predicate W3CColorAt(s: string, i: nat)
  {
    i + 7 <= |s| && s[i] == '#' && AllHex(s[i + 1..i + 7])
  }

  predicate ExcelColorAt(s: string, i: nat)
  {
    i + 8 <= |s| && AllHex(s[i..i + 8])
  }

  /** The unanchored, case-insensitive pattern `#` followed by six hex digits. */
  predicate HasW3CColor(s: string)
  {
    exists i: nat | i < |s| :: W3CColorAt(s, i)
  }

  /** The unanchored, case-insensitive pattern of eight hex digits. */
  predicate HasExcelColor(s: string)
  {
    exists i: nat | i < |s| :: ExcelColorAt(s, i)
  }

  /** `colorW3C2Excel`: a leading `#` becomes the opaque alpha `FF`, and the whole text is upper-cased. */
  function ColorW3CToExcel(color: string): (r: Result<string>)
    ensures r.Err? <==> !HasW3CColor(color)
    ensures r.Err? ==> r.error == BadColor(color)
    ensures r.Ok? ==> NoLowerCase(r.value)
    ensures r.Ok? ==> |r.value| == |color| + (if color[0] == '#' then 1 else 0)
  {
    if !HasW3CColor(color) then Err(BadColor(color))
    else
      var argb := if color[0] == '#' then "FF" + color[1..] else color;
      Ok(Upper(argb))
  }

  /** `colorExcel2W3C`: two leading hex digits (the alpha) become `#`, and the whole text is upper-cased. */
  function ColorExcelToW3C(color: string): (r: Result<string>)
    ensures r.Err? <==> !HasExcelColor(color)
    ensures r.Err? ==> r.error == BadColor(color)
    ensures r.Ok? ==> NoLowerCase(r.value)
    ensures r.Ok? ==> |r.value| == |color| - (if IsHex(color[0]) && IsHex(color[1]) then 1 else 0)
  {
    if !HasExcelColor(color) then Err(BadColor(color))
    else
      var rgb := if IsHex(color[0]) && IsHex(color[1]) then "#" + color[2..] else color;
      Ok(Upper(rgb))
  }

  lemma UpperHex(s: string)
    requires AllHex(s)
    ensures AllHex(Upper(s)) && NoLowerCase(Upper(s))
  {
  }

  lemma UpperUpper(s: string)
    ensures Upper(Upper(s)) == Upper(s)
  {
  }

  /**
   * A W3C colour goes to opaque ARGB and back to itself, upper-cased:
   * `#00cc99` becomes `FF00CC99` and then `#00CC99`.
   */
  lemma {:induction false} W3CRoundTrip(rgb: string)
    requires |rgb| == 6 && AllHex(rgb)
    ensures ColorW3CToExcel("#" + rgb) == Ok("FF" + Upper(rgb))
    ensures ColorExcelToW3C("FF" + Upper(rgb)) == Ok("#" + Upper(rgb))
  {
    var w := "#" + rgb;
    assert w[1..7] == rgb && w[1..] == rgb;
    assert W3CColorAt(w, 0);
    assert HasW3CColor(w);
    var x := "FF" + rgb;
    assert Upper(x) == "FF" + Upper(rgb);
    UpperHex(rgb);
    var e := "FF" + Upper(rgb);
    assert e[0..8] == e && ExcelColorAt(e, 0);
    assert HasExcelColor(e);
    assert e[2..] == Upper(rgb);
    UpperUpper(rgb);
    assert Upper("#" + Upper(rgb)) == "#" + Upper(rgb);
  }

  /**
   * An ARGB colour goes to W3C and back with its alpha forced to `FF`: the
   * transparency the W3C form cannot hold is lost.
   */
  lemma {:induction false} ExcelRoundTripDropsAlpha(argb: string)
    requires |argb| == 8 && AllHex(argb)
    ensures ColorExcelToW3C(argb) == Ok("#" + Upper(argb[2..]))
    ensures ColorW3CToExcel("#" + Upper(argb[2..])) == Ok("FF" + Upper(argb[2..]))
  {
    assert argb[0..8] == argb && ExcelColorAt(argb, 0);
    assert HasExcelColor(argb);
    assert Upper("#" + argb[2..]) == "#" + Upper(argb[2..]);
    UpperHex(argb[2..]);
    W3CRoundTrip(Upper(argb[2..]));
    UpperUpper(argb[2..]);
  }

  /** A colour text without a `#` and six hex digits is refused. */
  lemma BadW3CColor()
    ensures ColorW3CToExcel("00CC99") == Err(BadColor("00CC99"))
    ensures ColorW3CToExcel("#00CC9") == Err(BadColor("#00CC9"))
  {
  }

  /** The 64 colours of the legacy indexed palette, as ARGB. */
  const IndexedColors: seq<string> := [
    "00000000", "00FFFFFF", "00FF0000", "0000FF00", "000000FF", "00FFFF00", "00FF00FF", "0000FFFF",
    "00000000", "00FFFFFF", "00FF0000", "0000FF00", "000000FF", "00FFFF00", "00FF00FF", "0000FFFF",
    "00800000", "00008000", "00000080", "00808000", "00800080", "00008080", "00C0C0C0", "00808080",
    "009999FF", "00993366", "00FFFFCC", "00CCFFFF", "00660066", "00FF8080", "000066CC", "00CCCCFF",
    "00000080", "00FF00FF", "00FFFF00", "0000FFFF", "00800080", "00800000", "00008080", "000000FF",
    "0000CCFF", "00CCFFFF", "00CCFFCC", "00FFFF99", "0099CCFF", "00FF99CC", "00CC99FF", "00FFCC99",
    "003366FF", "0033CCCC", "0099CC00", "00FFCC00", "00FF9900", "00FF6600", "00666699", "00969696",
    "00003366", "00339966", "00003300", "00333300", "00993300", "00993366", "00333399", "00333333"]
}
