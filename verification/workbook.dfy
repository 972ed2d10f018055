// The workbook structure editor: selecting, finding, cloning, renaming and
// removing sheets, and the renumbering pass (`updateWorkbookLinks`) that
// keeps workbook.xml, its relationships, the content types and app.xml in
// step after a clone or a removal.

module Workbooks {
  import opened Common
  import opened Paths
  import opened Worksheets
  import Address

  // ---------------------------------------------------------------------
  // The package
  // ---------------------------------------------------------------------

  const WorksheetType := "http://schemas.openxmlformats.org/officeDocument/2006/relationships/worksheet"
  const ThemeType := "http://schemas.openxmlformats.org/officeDocument/2006/relationships/theme"
  const StylesType := "http://schemas.openxmlformats.org/officeDocument/2006/relationships/styles"
  const SharedStringsType := "http://schemas.openxmlformats.org/officeDocument/2006/relationships/sharedStrings"
  const CalcChainType := "http://schemas.openxmlformats.org/officeDocument/2006/relationships/calcChain"
  const ExternalLinkType := "http://schemas.openxmlformats.org/officeDocument/2006/relationships/externalLink"
  const WorksheetContentType := "application/vnd.openxmlformats-officedocument.spreadsheetml.worksheet+xml"

  /** A `<Relationship Id Type Target>` element. */
  datatype Rel = Rel(id: string, relType: string, target: string)

  /** A `<sheet r:id sheetId name>` element of workbook.xml. */
  datatype SheetEntry = SheetEntry(rid: string, sheetId: string, name: string)

  /** An `<Override PartName ContentType>` element of `[Content_Types].xml`. */
  datatype Override = Override(partName: string, contentType: string)

  /**
   * A part of the package by kind: a worksheet (the workbook object holds
   * the worksheet object, which the cell operations change in place, under
   * this handle), a relationships part, any other part, or the null a PHP
   * reference to a missing array slot leaves behind.
   */
  datatype Part = SheetPart(handle: nat) | RelsPart(rels: seq<Rel>) | OtherPart(content: string) | Null

  /**
   * What docProps/app.xml records about the sheets: the sheet count in
   * `HeadingPairs`, the number of titles in `TitlesOfParts` and that
   * vector's `size` attribute.
   */
  datatype App = App(sheetCount: nat, titleCount: nat, size: int)

  /**
   * The workbook's state: the parts by absolute path, the `<sheets>` of
   * workbook.xml, the workbook's relationships, the content-type overrides,
   * the path of every sheet by sheetId, the active tab, app.xml, and where
   * the workbook's relationships part lives.
   */
  datatype Package = Package(
    parts: map<string, Part>,
    sheets: seq<SheetEntry>,
    wbRels: seq<Rel>,
    overrides: seq<Override>,
    sheetPaths: map<string, string>,
    activeTab: Option<string>,
    app: App,
    wbRelPath: string)

  function RelId(n: nat): string
  {
    "rId" + NatToString(n)
  }

  /** `isset($this->arrSheets[$id])`: a sheet path is recorded and names a part that is not null. */
  predicate IsSet(p: Package, id: string)
  {
    id in p.sheetPaths && p.sheetPaths[id] in p.parts && !p.parts[p.sheetPaths[id]].Null?
  }

  // ---------------------------------------------------------------------
  // findSheetByName, selectSheet
  // ---------------------------------------------------------------------

  /** `findSheetByName`: the sheetId of the first sheet with that name. */
  function SheetIdByName(sheets: seq<SheetEntry>, name: string): (r: Option<string>)
    ensures r.None? <==> forall k :: 0 <= k < |sheets| ==> sheets[k].name != name
    ensures r.Some? ==> exists k :: 0 <= k < |sheets| && sheets[k].name == name && sheets[k].sheetId == r.value
                          && forall j :: 0 <= j < k ==> sheets[j].name != name
  {
    if |sheets| == 0 then None
    else if sheets[0].name == name then Some(sheets[0].sheetId)
    else
      var r := SheetIdByName(sheets[1..], name);
      if r.Some? then
        var k :| 0 <= k < |sheets| - 1 && sheets[1..][k].name == name && sheets[1..][k].sheetId == r.value
                 && forall j :: 0 <= j < k ==> sheets[1..][j].name != name;
        assert sheets[k + 1].name == name;
        r
      else r
  }

  /** `selectSheet`: the sheet's part, or an error when the sheet is not set. */
  function SelectSheetSpec(p: Package, id: string): (r: Result<Part>)
    ensures r.Ok? <==> IsSet(p, id)
    ensures r.Ok? ==> r.value != Null && r.value == p.parts[p.sheetPaths[id]]
    ensures r.Err? ==> r.error == SheetNotFound(id)
  {
    if IsSet(p, id) then Ok(p.parts[p.sheetPaths[id]]) else Err(SheetNotFound(id))
  }

  /** The first sheet entry with the given sheetId. */
  function FirstSheetWithId(sheets: seq<SheetEntry>, id: string, from: nat): (r: Option<nat>)
    requires from <= |sheets|
    ensures r.Some? ==> from <= r.value < |sheets| && sheets[r.value].sheetId == id
                        && forall j :: from <= j < r.value ==> sheets[j].sheetId != id
    ensures r.None? ==> forall j :: from <= j < |sheets| ==> sheets[j].sheetId != id
    decreases |sheets| - from
  {
    if from == |sheets| then None
    else if sheets[from].sheetId == id then Some(from)
    else FirstSheetWithId(sheets, id, from + 1)
  }

  // ---------------------------------------------------------------------
  // updateAppXML (its counts; the title strings are not modelled)
  // ---------------------------------------------------------------------

  /**
   * app.xml after the sheet set changed: the sheet count becomes
   * `sheetCount` (the sheets recorded by path), the old sheet titles give
   * way to one title per sheet entry, and `size` becomes the new sheet
   * count plus the titles that were not sheet titles before.
   */
  function AppAfter(app: App, sheetCount: nat, titles: nat): App
  {
    var others := app.titleCount - Address.Min(app.sheetCount, app.titleCount);
    App(sheetCount, others + titles, sheetCount + (app.titleCount - app.sheetCount))
  }

  function UpdateApp(p: Package): (q: Package)
    ensures q.app == AppAfter(p.app, |p.sheetPaths|, |p.sheets|)
    ensures q.parts == p.parts && q.sheets == p.sheets && q.wbRels == p.wbRels && q.overrides == p.overrides
    ensures q.sheetPaths == p.sheetPaths && q.activeTab == p.activeTab && q.wbRelPath == p.wbRelPath
  {
    p.(app := AppAfter(p.app, |p.sheetPaths|, |p.sheets|))
  }

  /** app.xml is consistent when `size` counts the titles and the sheet titles are among them. */
  predicate AppConsistent(app: App)
  {
    app.sheetCount <= app.titleCount && app.size == app.titleCount
  }

  // ---------------------------------------------------------------------
  // renameSheet
  // ---------------------------------------------------------------------

  /** `renameSheet`: the first sheet with that sheetId takes the new name, and app.xml is updated. */
  function RenameSheetSpec(p: Package, id: string, newName: string): (Package, Option<Error>)
  {
    if !IsSet(p, id) then (p, Some(SheetNotFound(id)))
    else
      var sheets := match FirstSheetWithId(p.sheets, id, 0)
        case None => p.sheets
        case Some(k) => p.sheets[k := p.sheets[k].(name := newName)];
      (UpdateApp(p.(sheets := sheets)), None)
  }

  // ---------------------------------------------------------------------
  // renameFile
  // ---------------------------------------------------------------------

  /** Every override naming `from` names `to` instead. */
  function RenamedOverrides(os: seq<Override>, from: string, to: string): (r: seq<Override>)
    ensures |r| == |os|
    ensures forall j :: 0 <= j < |os| ==> r[j].contentType == os[j].contentType
    ensures forall j :: 0 <= j < |os| ==> r[j].partName == if os[j].partName == from then to else os[j].partName
  {
    seq(|os|, j requires 0 <= j < |os| => if os[j].partName == from then os[j].(partName := to) else os[j])
  }

  /**
   * `renameFile` as the library writes it: the part moves to the new name
   * (a missing part becomes a null one) and the old name is unset
   * afterwards, so renaming a part to its own name deletes it.
   */
  function MovePartAsWritten(p: Package, from: string, to: string): (q: Package)
    ensures q.sheets == p.sheets && q.wbRels == p.wbRels && q.sheetPaths == p.sheetPaths
    ensures q.wbRelPath == p.wbRelPath && q.app == p.app && q.activeTab == p.activeTab
  {
    var part := if from in p.parts then p.parts[from] else Null;
    p.(parts := p.parts[to := part] - {from}, overrides := RenamedOverrides(p.overrides, from, to))
  }

  /** `renameFile` as intended: renaming a part to its own name changes nothing. */
  function MovePart(p: Package, from: string, to: string): (q: Package)
    ensures q.sheets == p.sheets && q.wbRels == p.wbRels && q.sheetPaths == p.sheetPaths
    ensures q.wbRelPath == p.wbRelPath && q.app == p.app && q.activeTab == p.activeTab
  {
    if from == to then p else MovePartAsWritten(p, from, to)
  }

  function Move(p: Package, from: string, to: string, corrected: bool): (q: Package)
    ensures q.sheets == p.sheets && q.wbRels == p.wbRels && q.sheetPaths == p.sheetPaths
    ensures q.wbRelPath == p.wbRelPath && q.app == p.app && q.activeTab == p.activeTab
  {
    if corrected then MovePart(p, from, to) else MovePartAsWritten(p, from, to)
  }

  // ---------------------------------------------------------------------
  // updateWorkbookLinks
  // ---------------------------------------------------------------------

  /** The paths the renumbering loop carries from one sheet to the next (PHP's `$oldPath`, `$newPath`). */
  datatype Carried = Carried(oldPath: string, newPath: string)

  /** What processing one sheet leaves: the package, the carried paths, and an error that stops the pass. */
  datatype Step = Step(pkg: Package, carried: Carried, err: Option<Error>)

  /** The first relationship with the given Id and the worksheet type. */
  function FirstSheetRel(rels: seq<Rel>, id: string, from: nat): (r: Option<nat>)
    requires from <= |rels|
    ensures r.Some? ==> from <= r.value < |rels| && rels[r.value].id == id && rels[r.value].relType == WorksheetType
    ensures r.None? ==> forall j :: from <= j < |rels| ==> !(rels[j].id == id && rels[j].relType == WorksheetType)
    decreases |rels| - from
  {
    if from == |rels| then None
    else if rels[from].id == id && rels[from].relType == WorksheetType then Some(from)
    else FirstSheetRel(rels, id, from + 1)
  }

  /** The file name the `i`-th sheet gets: `sheet<i>.xml`. */
  function SheetFile(i: nat): string
  {
    "sheet" + NatToString(i) + ".xml"
  }

  predicate IsAlnum(c: char) { IsDigit(c) || IsLetter(c) }

  function AlnumPrefixLength(s: string): (n: nat)
    ensures n <= |s|
    ensures forall j :: 0 <= j < n ==> IsAlnum(s[j])
    ensures n < |s| ==> !IsAlnum(s[n])
  {
    if |s| == 0 || !IsAlnum(s[0]) then 0 else AlnumPrefixLength(s[1..]) + 1
  }

  /**
   * `preg_replace("/([0-9]+)\.([a-z0-9]+)/i", "<n>.\2", s)`: every run of
   * digits followed by a dot and an alphanumeric extension becomes `n`.
   */
  function RenumberTarget(s: string, n: nat): string
    decreases |s|
  {
    if |s| == 0 then ""
    else if !IsDigit(s[0]) then [s[0]] + RenumberTarget(s[1..], n)
    else
      var d := DigitPrefixLength(s);
      var rest := s[d..];
      if |rest| >= 2 && rest[0] == '.' && IsAlnum(rest[1]) then
        var e := AlnumPrefixLength(rest[1..]);
        NatToString(n) + "." + rest[1..1 + e] + RenumberTarget(rest[1 + e..], n)
      else s[..d] + RenumberTarget(rest, n)
  }

  /** The relationships with the first `upTo` targets renumbered to `n`. */
  function Retargeted(rels: seq<Rel>, upTo: nat, n: nat): (r: seq<Rel>)
    ensures |r| == |rels|
  {
    seq(|rels|, j requires 0 <= j < |rels| => if j < upTo then rels[j].(target := RenumberTarget(rels[j].target, n)) else rels[j])
  }

  /**
   * One turn of the loop over a renamed sheet's relationships: the `m`-th
   * target becomes `newTarget` (the loop passes it renumbered to the
   * sheet's new index `n`) and the part it names is renamed to match; a
   * target that climbs above the root stops the pass.
   */
  function RenumberRelAt(p: Package, relPath: string, rels: seq<Rel>, m: nat, newTarget: string, n: nat, corrected: bool): (r: (Package, Option<Error>))
    requires m < |rels|
    ensures r.0.sheets == p.sheets && r.0.wbRels == p.wbRels && r.0.sheetPaths == p.sheetPaths
    ensures r.0.wbRelPath == p.wbRelPath
  {
    var oldTarget := rels[m].target;
    var p1 := p.(parts := p.parts[relPath := RelsPart(Retargeted(rels, m + 1, n))]);
    match PathByRelTarget(relPath, oldTarget)
    case Err(e) => (p1, Some(e))
    case Ok(from) =>
      match PathByRelTarget(relPath, newTarget)
      case Err(e) => (p1, Some(e))
      case Ok(to) => (Move(p1, from, to, corrected), None)
  }

  /** The loop over a renamed sheet's relationships, from the `m`-th on. */
  function RenumberRelsFrom(p: Package, relPath: string, rels: seq<Rel>, m: nat, n: nat, corrected: bool): (r: (Package, Option<Error>))
    requires m <= |rels|
    ensures r.0.sheets == p.sheets && r.0.wbRels == p.wbRels && r.0.sheetPaths == p.sheetPaths
    ensures r.0.wbRelPath == p.wbRelPath
    decreases |rels| - m
  {
    if m == |rels| then (p, None)
    else
      var (q, err) := RenumberRelAt(p, relPath, rels, m, RenumberTarget(rels[m].target, n), n, corrected);
      if err.Some? then (q, err) else RenumberRelsFrom(q, relPath, rels, m + 1, n, corrected)
  }

  function RenumberSheetRels(p: Package, relPath: string, n: nat, corrected: bool): (r: (Package, Option<Error>))
    ensures r.0.sheets == p.sheets && r.0.wbRels == p.wbRels && r.0.sheetPaths == p.sheetPaths
    ensures r.0.wbRelPath == p.wbRelPath
  {
    if relPath in p.parts && p.parts[relPath].RelsPart? && |p.parts[relPath].rels| > 0 then
      RenumberRelsFrom(p, relPath, p.parts[relPath].rels, 0, n, corrected)
    else (p, None)
  }

  /** `$this->arrSheets[$id] = &$this->arrXMLs[$path]`: record the path; taking the reference creates a null part when none is there. */
  function Bind(p: Package, id: string, path: string): (q: Package)
    ensures q.sheetPaths == p.sheetPaths[id := path]
    ensures path in q.parts
    ensures q.sheets == p.sheets && q.wbRels == p.wbRels && q.overrides == p.overrides && q.wbRelPath == p.wbRelPath
  {
    p.(sheetPaths := p.sheetPaths[id := path], parts := if path in p.parts then p.parts else p.parts[path := Null])
  }

  /**
   * The worksheet relationship of the `i`-th sheet takes the id `rId<i>`;
   * when the id changes its target becomes `sheet<i>.xml` in the same
   * directory. The paths found are carried on; when none is found the
   * previous sheet's are kept.
   */
  function RelinkTarget(rels: seq<Rel>, oldId: string, i: nat, c: Carried): (r: (seq<Rel>, Carried))
    ensures |r.0| == |rels|
    ensures FirstSheetRel(rels, oldId, 0).None? ==> r == (rels, c)
    ensures FirstSheetRel(rels, oldId, 0).Some? ==>
              var j := FirstSheetRel(rels, oldId, 0).value;
              && r.0[j] == rels[j].(id := RelId(i), target := r.1.newPath)
              && r.1.oldPath == rels[j].target
              && (forall q :: 0 <= q < |rels| && q != j ==> r.0[q] == rels[q])
  {
    var newId := RelId(i);
    match FirstSheetRel(rels, oldId, 0)
    case None => (rels, c)
    case Some(j) =>
      var oldPath := rels[j].target;
      var newPath := if oldId != newId then Dirname(oldPath) + "/" + SheetFile(i) else oldPath;
      (rels[j := rels[j].(id := newId, target := newPath)], Carried(oldPath, newPath))
  }

  /** The relationships and carried paths for the `i`-th sheet, falling back to `worksheets/sheet<i>.xml` when no path is carried. */
  function SheetTargets(rels: seq<Rel>, oldId: string, i: nat, c: Carried): (r: (seq<Rel>, Carried))
    ensures r.0 == RelinkTarget(rels, oldId, i, c).0
    ensures Address.Truthy(r.1.newPath)
  {
    var (rels', c1) := RelinkTarget(rels, oldId, i, c);
    if Address.Truthy(c1.newPath) then (rels', c1)
    else (rels', Carried("worksheets/" + SheetFile(i), "worksheets/" + SheetFile(i)))
  }

  /** The old and new absolute paths of the sheet part, resolved against the workbook's relationships part. */
  function ResolveSheet(wbRelPath: string, c: Carried): Result<(string, string)>
  {
    match PathByRelTarget(wbRelPath, c.oldPath)
    case Err(e) => Err(e)
    case Ok(oldAbs) =>
      match PathByRelTarget(wbRelPath, c.newPath)
      case Err(e) => Err(e)
      case Ok(newAbs) => Ok((oldAbs, newAbs))
  }

  /**
   * Once the paths are resolved: a renamed sheet's part moves, the sheet's
   * path is recorded, and a renamed sheet's relationships are renumbered
   * and their part moves beside the sheet.
   */
  function MoveSheet(p: Package, id: string, renamed: bool, oldAbs: string, newAbs: string, i: nat, corrected: bool): (r: (Package, Option<Error>))
    ensures r.0.sheets == p.sheets && r.0.wbRels == p.wbRels && r.0.wbRelPath == p.wbRelPath
    ensures r.0.sheetPaths == p.sheetPaths[id := newAbs]
  {
    var p2 := Bind(if renamed then Move(p, oldAbs, newAbs, corrected) else p, id, newAbs);
    if !renamed then (p2, None)
    else
      var (p3, err) := RenumberSheetRels(p2, RelFilePath(oldAbs), i, corrected);
      if err.Some? then (p3, err)
      else (Move(p3, RelFilePath(oldAbs), RelFilePath(newAbs), corrected), None)
  }

  /** One turn of the renumbering loop, for the sheet at index `k` (the `k + 1`-th sheet). */
  function RelinkSheet(p: Package, k: nat, c: Carried, corrected: bool): (r: Step)
    requires k < |p.sheets|
    ensures r.pkg.sheets == p.sheets[k := p.sheets[k].(rid := RelId(k + 1))]
    ensures r.pkg.wbRelPath == p.wbRelPath
    ensures r.err.None? ==> r.pkg.sheetPaths.Keys == p.sheetPaths.Keys + {p.sheets[k].sheetId}
  {
    var entry := p.sheets[k];
    var (wbRels, c2) := SheetTargets(p.wbRels, entry.rid, k + 1, c);
    var p1 := p.(sheets := p.sheets[k := entry.(rid := RelId(k + 1))], wbRels := wbRels);
    match ResolveSheet(p.wbRelPath, c2)
    case Err(e) => Step(p1, c2, Some(e))
    case Ok((oldAbs, newAbs)) =>
      var (p2, err) := MoveSheet(p1, entry.sheetId, entry.rid != RelId(k + 1), oldAbs, newAbs, k + 1, corrected);
      Step(p2, c2, err)
  }

  /** The fixed relationships follow the sheets: theme, styles, shared strings, calculation chain, external link. */
  function FixedRelId(r: Rel, n: nat): Rel
  {
    if r.relType == ThemeType then r.(id := RelId(n))
    else if r.relType == StylesType then r.(id := RelId(n + 1))
    else if r.relType == SharedStringsType then r.(id := RelId(n + 2))
    else if r.relType == CalcChainType then r.(id := RelId(n + 3))
    else if r.relType == ExternalLinkType then r.(id := RelId(n + 4))
    else r
  }

  function FixedRelIds(rels: seq<Rel>, n: nat): (r: seq<Rel>)
    ensures |r| == |rels|
    ensures forall j :: 0 <= j < |rels| ==> r[j] == rels[j].(id := r[j].id)
    ensures forall j :: 0 <= j < |rels| && !IsFixedType(rels[j].relType) ==> r[j] == rels[j]
  {
    seq(|rels|, j requires 0 <= j < |rels| => FixedRelId(rels[j], n))
  }

  /** The renumbering loop from the sheet at index `k` on, then the fixed relationships and app.xml. */
  function RelinkLoop(p: Package, k: nat, c: Carried, corrected: bool): (r: (Package, Option<Error>))
    requires k <= |p.sheets|
    decreases |p.sheets| - k
  {
    if k == |p.sheets| then (UpdateApp(p.(wbRels := FixedRelIds(p.wbRels, k + 1))), None)
    else
      var s := RelinkSheet(p, k, c, corrected);
      if s.err.Some? then (s.pkg, s.err) else RelinkLoop(s.pkg, k + 1, s.carried, corrected)
  }

  function RelinkStart(p: Package): Package
  {
    p.(activeTab := None, sheetPaths := map[])
  }

  /** `updateWorkbookLinks` as the library writes it, with its `renameFile`. */
  function RelinkAsWritten(p: Package): (Package, Option<Error>)
  {
    RelinkLoop(RelinkStart(p), 0, Carried("", ""), false)
  }

  /** `updateWorkbookLinks` with the intended `renameFile`. */
  function Relink(p: Package): (Package, Option<Error>)
  {
    RelinkLoop(RelinkStart(p), 0, Carried("", ""), true)
  }

  // ---------------------------------------------------------------------
  // removeSheet
  // ---------------------------------------------------------------------

  /** The loop over the removed sheet's relationships: the part each target names is unset. */
  function RemoveTargets(parts: map<string, Part>, relsPath: string, rels: seq<Rel>, m: nat): (r: (map<string, Part>, Option<Error>))
    requires m <= |rels|
    ensures r.0.Keys <= parts.Keys
    ensures forall path :: path in r.0 ==> r.0[path] == parts[path]
    ensures r.1.Some? ==> r.1.value.PathAboveRoot?
    decreases |rels| - m
  {
    if m == |rels| then (parts, None)
    else match PathByRelTarget(relsPath, rels[m].target)
      case Err(e) => (parts, Some(e))
      case Ok(path) => RemoveTargets(parts - {path}, relsPath, rels, m + 1)
  }

  /** The first relationship with the given Id, of any type. */
  function FirstRelWithId(rels: seq<Rel>, id: string, from: nat): (r: Option<nat>)
    requires from <= |rels|
    ensures r.Some? ==> from <= r.value < |rels| && rels[r.value].id == id
                        && forall j :: from <= j < r.value ==> rels[j].id != id
    ensures r.None? ==> forall j :: from <= j < |rels| ==> rels[j].id != id
    decreases |rels| - from
  {
    if from == |rels| then None
    else if rels[from].id == id then Some(from)
    else FirstRelWithId(rels, id, from + 1)
  }

  /** The last override naming `path`. */
  function LastOverride(os: seq<Override>, path: string): (r: Option<nat>)
    ensures r.Some? ==> r.value < |os| && os[r.value].partName == path
                        && forall j :: r.value < j < |os| ==> os[j].partName != path
    ensures r.None? ==> forall j :: 0 <= j < |os| ==> os[j].partName != path
  {
    if |os| == 0 then None
    else if os[|os| - 1].partName == path then Some(|os| - 1)
    else LastOverride(os[..|os| - 1], path)
  }

  function RemoveAt<T>(s: seq<T>, j: nat): (r: seq<T>)
    ensures j < |s| ==> |r| == |s| - 1 && forall q :: 0 <= q < |r| ==> r[q] == if q < j then s[q] else s[q + 1]
    ensures j >= |s| ==> r == s
  {
    if j < |s| then s[..j] + s[j + 1..] else s
  }

  /**
   * What `removeSheet` does to the workbook before renumbering, once the
   * parts are gone: the sheet's path is forgotten, the first sheet entry
   * with that sheetId and the first relationship with that entry's id are
   * removed, and so is the last override naming the sheet's path, or the
   * first override when none does.
   */
  function Detach(p: Package, id: string, path: string): (q: Package)
    ensures q.sheetPaths == p.sheetPaths - {id}
    ensures q.parts == p.parts && q.wbRelPath == p.wbRelPath
  {
    var (sheets, wbRels) := match FirstSheetWithId(p.sheets, id, 0)
      case None => (p.sheets, p.wbRels)
      case Some(k) =>
        (RemoveAt(p.sheets, k),
         match FirstRelWithId(p.wbRels, p.sheets[k].rid, 0)
         case None => p.wbRels
         case Some(j) => RemoveAt(p.wbRels, j));
    var ixDel := match LastOverride(p.overrides, path) case None => 0 case Some(j) => j;
    p.(sheetPaths := p.sheetPaths - {id}, sheets := sheets, wbRels := wbRels, overrides := RemoveAt(p.overrides, ixDel))
  }

  /**
   * `removeSheet` up to the renumbering pass: the parts the sheet's
   * relationships name, its relationships part and the sheet part are
   * unset, then the sheet is detached. For an id with no recorded path no
   * part is touched: the paths the library derives then (the empty path and
   * `/_rels.rels`) name no part of a package.
   */
  function Unlinked(p: Package, id: string): (Package, Option<Error>)
  {
    if id !in p.sheetPaths then (Detach(p, id, ""), None)
    else
      var path := p.sheetPaths[id];
      var relsPath := RelFilePath(path);
      var (parts, err) :=
        if relsPath in p.parts && p.parts[relsPath].RelsPart? then RemoveTargets(p.parts, relsPath, p.parts[relsPath].rels, 0)
        else (p.parts, None);
      if err.Some? then (p.(parts := parts), err)
      else (Detach(p.(parts := parts - {relsPath, path}), id, path), None)
  }

  /** `removeSheet`: unlink the sheet, then renumber. The id is not checked. */
  function RemoveSheetSpec(p: Package, id: string): (Package, Option<Error>)
  {
    var (u, err) := Unlinked(p, id);
    if err.Some? then (u, err) else Relink(u)
  }

  // ---------------------------------------------------------------------
  // cloneSheet
  // ---------------------------------------------------------------------

  /** The largest `(int)` sheetId, at least `acc`. */
  function MaxSheetId(sheets: seq<SheetEntry>, acc: nat): (r: nat)
    ensures r >= acc
    ensures forall k :: 0 <= k < |sheets| ==> IntCast(sheets[k].sheetId) <= r
    decreases |sheets|
  {
    if |sheets| == 0 then acc
    else MaxSheetId(sheets[1..], if IntCast(sheets[0].sheetId) > acc then IntCast(sheets[0].sheetId) else acc)
  }

  /** `sheet<digits>.xml` starts at `i` in `s`. */
  predicate SheetFileAt(s: string, i: nat)
  {
    i + 5 <= |s| && s[i..i + 5] == "sheet" &&
    var d := DigitPrefixLength(s[i + 5..]);
    d > 0 && i + 5 + d + 4 <= |s| && s[i + 5 + d..i + 5 + d + 4] == ".xml"
  }

  /** `preg_match('/sheet([0-9]+)\.xml/', s)` then `(int)` of the digits: 0 when nothing matches. */
  function SheetFileNumber(s: string, from: nat): nat
    decreases |s| - from
  {
    if from >= |s| then 0
    else if SheetFileAt(s, from) then IntCast(s[from + 5..])
    else SheetFileNumber(s, from + 1)
  }

  /** The largest sheet file number among the sheets' recorded paths, at least `acc`. */
  function MaxFileIndex(sheets: seq<SheetEntry>, paths: map<string, string>, acc: nat): (r: nat)
    ensures r >= acc
    ensures forall k :: 0 <= k < |sheets| && sheets[k].sheetId in paths ==>
              SheetFileNumber(Basename(paths[sheets[k].sheetId]), 0) <= r
    decreases |sheets|
  {
    if |sheets| == 0 then acc
    else
      var path := if sheets[0].sheetId in paths then paths[sheets[0].sheetId] else "";
      var n := SheetFileNumber(Basename(path), 0);
      MaxFileIndex(sheets[1..], paths, if n > acc then n else acc)
  }

  /** The largest relationship number `(int)str_replace('rId', '', rid)`, at least `acc`. */
  function MaxRelIndex(sheets: seq<SheetEntry>, acc: nat): (r: nat)
    ensures r >= acc
    ensures forall k :: 0 <= k < |sheets| ==> IntCast(RemoveAll(sheets[k].rid, "rId")) <= r
    decreases |sheets|
  {
    if |sheets| == 0 then acc
    else
      var n := IntCast(RemoveAll(sheets[0].rid, "rId"));
      MaxRelIndex(sheets[1..], if n > acc then n else acc)
  }

  /** The name a clone gets: the one asked for, or `Sheet <id>` when that is empty or `"0"`. */
  function CloneName(newName: string, newId: nat): string
  {
    if Address.Truthy(newName) then newName else "Sheet " + NatToString(newId)
  }

  /**
   * `cloneSheet` before the renumbering pass, given the part the copy of
   * the sheet becomes: the copy (and a copy of its relationships) is added
   * under the next free file number in the origin's directory, and a sheet
   * entry, a worksheet relationship and a content-type override are
   * appended. The result is the new sheetId.
   */
  function Cloned(p: Package, origin: string, newName: string, copy: Part): (Package, Result<string>)
  {
    if !IsSet(p, origin) then (p, Err(SheetNotFound(origin)))
    else
      var originPath := p.sheetPaths[origin];
      if !p.parts[originPath].SheetPart? then (p, Err(BrokenReference("sheet " + origin)))
      else
        AddCopy(p, originPath, newName, copy, MaxSheetId(p.sheets, 1) + 1,
                SheetFile(MaxFileIndex(p.sheets, p.sheetPaths, 1) + 1), RelId(MaxRelIndex(p.sheets, 0) + 1))
  }

  /** The copy is stored as `file` next to the original, its relationships copied, and it is appended as `rid`. */
  function AddCopy(p: Package, originPath: string, newName: string, copy: Part, newId: nat, file: string, rid: string): (Package, Result<string>)
  {
    var newPath := Dirname(originPath) + "/" + file;
    var parts := p.parts[newPath := copy];
    var relsPath := RelFilePath(originPath);
    if relsPath in parts && !parts[relsPath].Null? && !parts[relsPath].RelsPart? then
      (p.(parts := parts), Err(BrokenReference("relationships " + relsPath)))
    else
      var parts' := if relsPath in parts && parts[relsPath].RelsPart? then parts[RelFilePath(newPath) := parts[relsPath]] else parts;
      (p.(parts := parts',
          sheets := p.sheets + [SheetEntry(rid, NatToString(newId), CloneName(newName, newId))],
          wbRels := p.wbRels + [Rel(rid, WorksheetType, "worksheets/" + file)],
          overrides := p.overrides + [Override("/xl/worksheets/" + file, WorksheetContentType)]),
       Ok(NatToString(newId)))
  }

  /** `cloneSheet`: add the copy, then renumber. */
  function CloneSheetSpec(p: Package, origin: string, newName: string, copy: Part): (Package, Result<string>)
  {
    var (c, r) := Cloned(p, origin, newName, copy);
    if r.Err? then (c, r)
    else
      var (q, err) := Relink(c);
      (q, if err.Some? then Err(err.value) else r)
  }

  // ---------------------------------------------------------------------
  // Properties of the renumbering pass
  // ---------------------------------------------------------------------

  /** The sheets from index `k` on carry the relationship ids `rId<k+1>`, ... over `ps`. */
  predicate NumberedFrom(qs: seq<SheetEntry>, ps: seq<SheetEntry>, k: nat)
  {
    |qs| == |ps| &&
    (forall j :: 0 <= j < k && j < |ps| ==> qs[j] == ps[j]) &&
    (forall j :: k <= j < |ps| ==> qs[j] == ps[j].(rid := RelId(j + 1)))
  }

  lemma NumberedStep(qs: seq<SheetEntry>, ss: seq<SheetEntry>, ps: seq<SheetEntry>, k: nat)
    requires k < |ps| && ss == ps[k := ps[k].(rid := RelId(k + 1))]
    requires NumberedFrom(qs, ss, k + 1)
    ensures NumberedFrom(qs, ps, k)
  {
  }

  lemma {:induction false} RelinkLoopNumbers(p: Package, k: nat, c: Carried)
    requires k <= |p.sheets|
    ensures RelinkLoop(p, k, c, true).1.None? ==> NumberedFrom(RelinkLoop(p, k, c, true).0.sheets, p.sheets, k)
    decreases |p.sheets| - k
  {
    hide RelinkSheet;
    if k < |p.sheets| {
      var s := RelinkSheet(p, k, c, true);
      if s.err.None? {
        RelinkLoopNumbers(s.pkg, k + 1, s.carried);
        var q := RelinkLoop(s.pkg, k + 1, s.carried, true);
        assert RelinkLoop(p, k, c, true) == q;
        if q.1.None? {
          NumberedStep(q.0.sheets, s.pkg.sheets, p.sheets, k);
        }
      }
    }
  }

  /**
   * After a successful renumbering the sheets keep their order, sheetIds
   * and names, and the `k`-th sheet's relationship id is `rId<k>`.
   */
  lemma RelinkNumbersSheets(p: Package)
    ensures var (q, err) := Relink(p);
      err.None? ==> (|q.sheets| == |p.sheets| &&
        forall j :: 0 <= j < |p.sheets| ==> q.sheets[j] == p.sheets[j].(rid := RelId(j + 1)))
  {
    hide RelinkLoop, RelinkSheet;
    RelinkLoopNumbers(RelinkStart(p), 0, Carried("", ""));
  }

  /** Relationship ids of different numbers differ. */
  lemma RelIdInjective(m: nat, n: nat)
    requires RelId(m) == RelId(n)
    ensures m == n
  {
    assert RelId(m)[3..] == NatToString(m);
    assert RelId(n)[3..] == NatToString(n);
    NatToStringInjective(m, n);
  }

  /** The fixed relationships carry the ids `rId<n>` to `rId<n+4>`, by type. */
  predicate FixedIdsFollow(rels: seq<Rel>, n: nat)
  {
    forall j :: 0 <= j < |rels| ==>
      (rels[j].relType == ThemeType ==> rels[j].id == RelId(n)) &&
      (rels[j].relType == StylesType ==> rels[j].id == RelId(n + 1)) &&
      (rels[j].relType == SharedStringsType ==> rels[j].id == RelId(n + 2)) &&
      (rels[j].relType == CalcChainType ==> rels[j].id == RelId(n + 3)) &&
      (rels[j].relType == ExternalLinkType ==> rels[j].id == RelId(n + 4))
  }

  lemma FixedRelIdsFollow(rels: seq<Rel>, n: nat)
    ensures FixedIdsFollow(FixedRelIds(rels, n), n)
  {
    assert |ThemeType| != |StylesType| && |ThemeType| != |SharedStringsType| && |ThemeType| != |CalcChainType|;
    assert |ThemeType| != |ExternalLinkType| && |StylesType| != |SharedStringsType| && |StylesType| != |CalcChainType|;
    assert |StylesType| != |ExternalLinkType| && |SharedStringsType| != |CalcChainType|;
    assert |SharedStringsType| != |ExternalLinkType| && |CalcChainType| != |ExternalLinkType|;
  }

  lemma {:induction false} RelinkLoopFixedIds(p: Package, k: nat, c: Carried)
    requires k <= |p.sheets|
    ensures RelinkLoop(p, k, c, true).1.None? ==> FixedIdsFollow(RelinkLoop(p, k, c, true).0.wbRels, |p.sheets| + 1)
    decreases |p.sheets| - k
  {
    hide RelinkSheet;
    if k < |p.sheets| {
      var s := RelinkSheet(p, k, c, true);
      if s.err.None? {
        RelinkLoopFixedIds(s.pkg, k + 1, s.carried);
        assert RelinkLoop(p, k, c, true) == RelinkLoop(s.pkg, k + 1, s.carried, true);
      }
    } else {
      FixedRelIdsFollow(p.wbRels, k + 1);
      assert RelinkLoop(p, k, c, true).0.wbRels == FixedRelIds(p.wbRels, k + 1);
    }
  }

  predicate IsFixedType(t: string)
  {
    t == ThemeType || t == StylesType || t == SharedStringsType || t == CalcChainType || t == ExternalLinkType
  }

  /** Fixed ids that follow the sheets' `rId1` to `rId<n>` are none of the sheets' ids. */
  lemma FixedIdsApart(rels: seq<Rel>, sheets: seq<SheetEntry>)
    requires FixedIdsFollow(rels, |sheets| + 1)
    requires forall k :: 0 <= k < |sheets| ==> sheets[k].rid == RelId(k + 1)
    ensures forall j, k :: 0 <= j < |rels| && 0 <= k < |sheets| && IsFixedType(rels[j].relType) ==> rels[j].id != sheets[k].rid
  {
    forall j, k | 0 <= j < |rels| && 0 <= k < |sheets| && IsFixedType(rels[j].relType)
      ensures rels[j].id != sheets[k].rid
    {
      var n := |sheets| + 1;
      var t := rels[j].relType;
      var m := if t == ThemeType then n else if t == StylesType then n + 1 else if t == SharedStringsType then n + 2
               else if t == CalcChainType then n + 3 else n + 4;
      assert rels[j].id == RelId(m);
      if rels[j].id == sheets[k].rid {
        RelIdInjective(m, k + 1);
      }
    }
  }

  /**
   * After a successful renumbering the theme, styles, shared strings,
   * calculation chain and external link relationships take the five ids
   * after the sheets', so no fixed relationship shares an id with a sheet.
   */
  lemma RelinkFixedIds(p: Package)
    ensures var (q, err) := Relink(p);
      err.None? ==> (FixedIdsFollow(q.wbRels, |q.sheets| + 1) &&
        forall j, k :: 0 <= j < |q.wbRels| && 0 <= k < |q.sheets| && IsFixedType(q.wbRels[j].relType) ==> q.wbRels[j].id != q.sheets[k].rid)
  {
    hide RelinkLoop, RelinkSheet;
    var (q, err) := Relink(p);
    RelinkNumbersSheets(p);
    RelinkLoopFixedIds(RelinkStart(p), 0, Carried("", ""));
    if err.None? {
      FixedIdsApart(q.wbRels, q.sheets);
    }
  }

  lemma {:induction false} RelinkLoopBinds(p: Package, k: nat, c: Carried)
    requires k <= |p.sheets|
    ensures RelinkLoop(p, k, c, true).1.None? ==>
      RelinkLoop(p, k, c, true).0.sheetPaths.Keys == p.sheetPaths.Keys + set j | k <= j < |p.sheets| :: p.sheets[j].sheetId
    decreases |p.sheets| - k
  {
    hide RelinkSheet, UpdateApp, FixedRelIds;
    if k < |p.sheets| {
      var s := RelinkSheet(p, k, c, true);
      if s.err.None? {
        RelinkLoopBinds(s.pkg, k + 1, s.carried);
        assert RelinkLoop(p, k, c, true) == RelinkLoop(s.pkg, k + 1, s.carried, true);
        IdsFromStep(s.pkg.sheets, p.sheets, k);
      }
    } else {
      assert RelinkLoop(p, k, c, true).0.sheetPaths == p.sheetPaths;
    }
  }

  lemma IdsFromStep(ss: seq<SheetEntry>, ps: seq<SheetEntry>, k: nat)
    requires k < |ps| && ss == ps[k := ps[k].(rid := RelId(k + 1))]
    ensures (set j | k + 1 <= j < |ss| :: ss[j].sheetId) + {ps[k].sheetId} == set j | k <= j < |ps| :: ps[j].sheetId
  {
    var a := (set j | k + 1 <= j < |ss| :: ss[j].sheetId) + {ps[k].sheetId};
    var b := set j | k <= j < |ps| :: ps[j].sheetId;
    forall x | x in b ensures x in a {
      var j :| k <= j < |ps| && ps[j].sheetId == x;
      if j > k { assert ss[j].sheetId == x; }
    }
  }

  /** After a successful renumbering exactly the sheets' ids have a recorded path. */
  lemma RelinkBindsSheets(p: Package)
    ensures var (q, err) := Relink(p);
      err.None? ==> q.sheetPaths.Keys == set j | 0 <= j < |q.sheets| :: q.sheets[j].sheetId
  {
    hide RelinkLoop, RelinkSheet;
    RelinkLoopBinds(RelinkStart(p), 0, Carried("", ""));
    RelinkNumbersSheets(p);
  }

  // ---------------------------------------------------------------------
  // renameFile: as written and as intended
  // ---------------------------------------------------------------------

  /** As written, renaming a part to its own name removes it from the package. */
  lemma MoveToItselfAsWritten(p: Package, path: string)
    ensures MovePartAsWritten(p, path, path).parts == p.parts - {path}
    ensures path !in MovePartAsWritten(p, path, path).parts
  {
  }

  /**
   * As intended, a rename moves the part and its override and leaves every
   * other part alone; renaming to the same name changes nothing.
   */
  lemma MovePartMoves(p: Package, from: string, to: string)
    ensures var q := MovePart(p, from, to);
      (from == to ==> q == p) &&
      (from != to ==>
        from !in q.parts && to in q.parts && q.parts[to] == (if from in p.parts then p.parts[from] else Null) &&
        (forall path :: path != from && path != to ==> (path in q.parts <==> path in p.parts)) &&
        (forall path :: path in p.parts && path != from && path != to ==> q.parts[path] == p.parts[path]) &&
        |q.overrides| == |p.overrides| &&
        forall j :: 0 <= j < |p.overrides| ==> (q.overrides[j].partName == to <==> p.overrides[j].partName in {from, to}))
  {
  }

  /**
   * The renumbering pass as written loses a sheet whose relationship id
   * changes while its file name already matches its position: the part is
   * renamed to its own name, which removes it, and recording the sheet's
   * path then leaves a null part in its place.
   */
  lemma RenamedInPlaceLost(p: Package, j: nat, abs: string)
    requires |p.sheets| == 1 && p.sheets[0].rid != RelId(1)
    requires FirstSheetRel(p.wbRels, p.sheets[0].rid, 0) == Some(j)
    requires Dirname(p.wbRels[j].target) + "/" + SheetFile(1) == p.wbRels[j].target
    requires PathByRelTarget(p.wbRelPath, p.wbRels[j].target) == Ok(abs)
    requires abs in p.parts && RelFilePath(abs) !in p.parts
    ensures RelinkAsWritten(p).1.None? && abs in RelinkAsWritten(p).0.parts && RelinkAsWritten(p).0.parts[abs] == Null
  {
    var p0 := RelinkStart(p);
    var t := p.wbRels[j].target;
    var entry := p.sheets[0];
    assert |t| >= |SheetFile(1)| > 1;
    assert RelinkTarget(p0.wbRels, entry.rid, 1, Carried("", "")).1 == Carried(t, t);
    var (wbRels, c2) := SheetTargets(p0.wbRels, entry.rid, 1, Carried("", ""));
    assert c2 == Carried(t, t);
    assert ResolveSheet(p.wbRelPath, c2) == Ok((abs, abs));
    var p1 := p0.(sheets := p0.sheets[0 := entry.(rid := RelId(1))], wbRels := wbRels);
    MoveSheetInPlaceAsWritten(p1, entry.sheetId, abs);
    var m := MoveSheet(p1, entry.sheetId, true, abs, abs, 1, false);
    assert RelinkSheet(p0, 0, Carried("", ""), false) == Step(m.0, c2, None);
    assert RelinkAsWritten(p) == RelinkLoop(m.0, 1, c2, false);
  }

  lemma MoveSheetInPlaceAsWritten(p: Package, id: string, abs: string)
    requires abs in p.parts && RelFilePath(abs) !in p.parts
    ensures var m := MoveSheet(p, id, true, abs, abs, 1, false);
      m.1.None? && abs in m.0.parts && m.0.parts[abs] == Null
  {
    var p2 := Bind(MovePartAsWritten(p, abs, abs), id, abs);
    assert p2.parts == p.parts[abs := Null];
    assert RenumberSheetRels(p2, RelFilePath(abs), 1, false) == (p2, None);
  }

  /** With the intended `renameFile` the same sheet keeps its part. */
  lemma RenamedInPlaceKept(p: Package, j: nat, abs: string)
    requires |p.sheets| == 1 && p.sheets[0].rid != RelId(1)
    requires FirstSheetRel(p.wbRels, p.sheets[0].rid, 0) == Some(j)
    requires Dirname(p.wbRels[j].target) + "/" + SheetFile(1) == p.wbRels[j].target
    requires PathByRelTarget(p.wbRelPath, p.wbRels[j].target) == Ok(abs)
    requires abs in p.parts && RelFilePath(abs) !in p.parts
    ensures Relink(p).1.None? && abs in Relink(p).0.parts && Relink(p).0.parts[abs] == p.parts[abs]
  {
    var p0 := RelinkStart(p);
    var t := p.wbRels[j].target;
    var entry := p.sheets[0];
    assert |t| >= |SheetFile(1)| > 1;
    assert RelinkTarget(p0.wbRels, entry.rid, 1, Carried("", "")).1 == Carried(t, t);
    var (wbRels, c2) := SheetTargets(p0.wbRels, entry.rid, 1, Carried("", ""));
    assert c2 == Carried(t, t);
    assert ResolveSheet(p.wbRelPath, c2) == Ok((abs, abs));
    var p1 := p0.(sheets := p0.sheets[0 := entry.(rid := RelId(1))], wbRels := wbRels);
    var p2 := Bind(MovePart(p1, abs, abs), entry.sheetId, abs);
    assert p2.parts == p.parts;
    assert RenumberSheetRels(p2, RelFilePath(abs), 1, true) == (p2, None);
    assert MoveSheet(p1, entry.sheetId, true, abs, abs, 1, true) == (p2, None);
    var s := RelinkSheet(p0, 0, Carried("", ""), true);
    assert s == Step(p2, c2, None);
    assert Relink(p) == RelinkLoop(p2, 1, c2, true);
  }

  // ---------------------------------------------------------------------
  // Renumbering relationship targets
  // ---------------------------------------------------------------------

  lemma {:induction false} DigitPrefixOfDigits(d: string, rest: string)
    requires AllDigits(d) && (|rest| == 0 || !IsDigit(rest[0]))
    ensures DigitPrefixLength(d + rest) == |d|
  {
    if |d| > 0 {
      assert (d + rest)[1..] == d[1..] + rest;
      DigitPrefixOfDigits(d[1..], rest);
    } else {
      assert d + rest == rest;
    }
  }

  lemma {:induction false} AlnumPrefixOfLetters(ext: string)
    requires AllLetters(ext)
    ensures AlnumPrefixLength(ext) == |ext|
  {
    if |ext| > 0 {
      AlnumPrefixOfLetters(ext[1..]);
    }
  }

  /**
   * A target `<prefix><number>.<ext>` whose prefix has no digits and whose
   * extension is letters is renumbered to `<prefix><n>.<ext>`: a sheet's
   * drawing `../drawings/drawing3.xml` follows the sheet to index `n`.
   */
  lemma {:induction false} RenumberFileName(prefix: string, m: nat, ext: string, n: nat)
    requires forall j :: 0 <= j < |prefix| ==> !IsDigit(prefix[j])
    requires |ext| > 0 && AllLetters(ext)
    ensures RenumberTarget(prefix + NatToString(m) + "." + ext, n) == prefix + NatToString(n) + "." + ext
    decreases |prefix|
  {
    if |prefix| == 0 {
      RenumberNumberedName(m, ext, n);
      assert prefix + NatToString(m) + "." + ext == NatToString(m) + "." + ext;
    } else {
      var s := prefix + NatToString(m) + "." + ext;
      assert s[0] == prefix[0];
      assert s[1..] == prefix[1..] + NatToString(m) + "." + ext;
      RenumberFileName(prefix[1..], m, ext, n);
      assert prefix == [prefix[0]] + prefix[1..];
    }
  }

  lemma RenumberNumberedName(m: nat, ext: string, n: nat)
    requires |ext| > 0 && AllLetters(ext)
    ensures RenumberTarget(NatToString(m) + "." + ext, n) == NatToString(n) + "." + ext
  {
    RenumberDigitsName(NatToString(m), ext, n);
  }

  lemma RenumberDigitsName(d: string, ext: string, n: nat)
    requires |d| > 0 && AllDigits(d) && |ext| > 0 && AllLetters(ext)
    ensures RenumberTarget(d + "." + ext, n) == NatToString(n) + "." + ext
  {
    var rest := "." + ext;
    var s := d + rest;
    assert d + "." + ext == s;
    DigitPrefixOfDigits(d, rest);
    assert s[|d|..] == rest;
    AlnumPrefixOfLetters(ext);
    assert rest[1..] == ext;
    assert IsAlnum(rest[1]);
    assert RenumberTarget(s, n) == NatToString(n) + "." + rest[1..1 + |ext|] + RenumberTarget(rest[1 + |ext|..], n);
    assert rest[1..1 + |ext|] == ext;
    assert rest[1 + |ext|..] == "";
  }


  // ---------------------------------------------------------------------
  // app.xml
  // ---------------------------------------------------------------------

  /**
   * Updating app.xml records the new sheet count, keeps the titles that
   * were not sheet titles, and keeps `size` equal to the number of titles
   * exactly when every sheet entry has its own recorded path.
   */
  lemma AppStaysConsistent(app: App, n: nat, titles: nat)
    requires AppConsistent(app)
    ensures AppAfter(app, n, titles).sheetCount == n
    ensures AppAfter(app, n, titles).titleCount - titles == app.titleCount - app.sheetCount
    ensures AppConsistent(AppAfter(app, n, titles)) <==> n == titles
  {
  }

  // ---------------------------------------------------------------------
  // renameSheet, cloneSheet, removeSheet
  // ---------------------------------------------------------------------

  /**
   * `renameSheet` fails exactly for a sheet that is not set, and changes
   * nothing then; otherwise only the name changes, and when no other sheet
   * has the new name `findSheetByName` finds the renamed sheet by it.
   */
  lemma RenameSheetMeaning(p: Package, id: string, newName: string)
    ensures var (q, err) := RenameSheetSpec(p, id, newName);
      (err.None? <==> IsSet(p, id)) &&
      (err.Some? ==> err.value == SheetNotFound(id) && q == p) &&
      (err.None? ==>
         |q.sheets| == |p.sheets| && q.parts == p.parts && q.wbRels == p.wbRels && q.overrides == p.overrides &&
         (forall k :: 0 <= k < |p.sheets| ==> q.sheets[k].sheetId == p.sheets[k].sheetId && q.sheets[k].rid == p.sheets[k].rid) &&
         (AppConsistent(p.app) && |p.sheetPaths| == |p.sheets| ==> AppConsistent(q.app)) &&
         (FirstSheetWithId(p.sheets, id, 0).Some? &&
          (forall k :: 0 <= k < |p.sheets| && p.sheets[k].sheetId != id ==> p.sheets[k].name != newName)
          ==> SheetIdByName(q.sheets, newName) == Some(id)))
  {
    var (q, err) := RenameSheetSpec(p, id, newName);
    if err.None? {
      if AppConsistent(p.app) {
        AppStaysConsistent(p.app, |p.sheetPaths|, |p.sheets|);
      }
      var f := FirstSheetWithId(p.sheets, id, 0);
      if f.Some? {
        assert q.sheets[f.value].name == newName;
      }
    }
  }

  /**
   * `cloneSheet` fails for a sheet that is not set and changes nothing
   * then; on success the clone is the last sheet, with the name asked for
   * (or `Sheet <id>`), an id larger than every other sheet's, and a
   * recorded path, and the sheets before it are renumbered in order.
   */
  lemma CloneSheetAppends(p: Package, origin: string, newName: string, copy: Part)
    ensures var (q, r) := CloneSheetSpec(p, origin, newName, copy);
      (!IsSet(p, origin) ==> q == p && r == Err(SheetNotFound(origin))) &&
      (r.Ok? ==>
        |q.sheets| == |p.sheets| + 1 &&
        (forall k :: 0 <= k < |p.sheets| ==> q.sheets[k] == p.sheets[k].(rid := RelId(k + 1))) &&
        q.sheets[|p.sheets|] == SheetEntry(RelId(|p.sheets| + 1), r.value, CloneName(newName, IntCast(r.value))) &&
        (forall k :: 0 <= k < |p.sheets| ==> IntCast(p.sheets[k].sheetId) < IntCast(r.value)) &&
        r.value in q.sheetPaths)
  {
    hide Relink, RelinkLoop, RelinkSheet, RelFilePath, Dirname, SheetFile, CloneName, NatToString, IntCast, RelId;
    var (c, r0) := Cloned(p, origin, newName, copy);
    if r0.Ok? {
      var newId := MaxSheetId(p.sheets, 1) + 1;
      assert r0.value == NatToString(newId);
      IntCastOfNatToString(newId);
      RelinkNumbersSheets(c);
      RelinkBindsSheets(c);
      var (q, err) := Relink(c);
      if err.None? {
        assert c.sheets[|p.sheets|].sheetId == r0.value;
        assert q.sheets[|p.sheets|].sheetId == r0.value;
      }
    }
  }

  lemma UnlinkedDropsEntry(p: Package, id: string, k: nat)
    requires FirstSheetWithId(p.sheets, id, 0) == Some(k)
    ensures Unlinked(p, id).1.None? ==> Unlinked(p, id).0.sheets == RemoveAt(p.sheets, k)
  {
  }

  /** On success `removeSheet` drops the sheet's entry and renumbers the rest in order. */
  lemma RemoveSheetDropsEntry(p: Package, id: string, k: nat)
    requires FirstSheetWithId(p.sheets, id, 0) == Some(k)
    ensures var (q, err) := RemoveSheetSpec(p, id);
      err.None? ==> (|q.sheets| == |p.sheets| - 1 &&
        forall j :: 0 <= j < |q.sheets| ==> q.sheets[j] == (if j < k then p.sheets[j] else p.sheets[j + 1]).(rid := RelId(j + 1)))
  {
    hide Unlinked, Relink, RelinkLoop, RelinkSheet, RelId;
    var (u, err) := Unlinked(p, id);
    if err.None? {
      UnlinkedDropsEntry(p, id, k);
      RelinkNumbersSheets(u);
      var q := Relink(u).0;
      if Relink(u).1.None? {
        DroppedNumbered(q.sheets, u.sheets, p.sheets, k);
      }
      assert RemoveSheetSpec(p, id) == Relink(u);
    }
  }

  lemma DroppedNumbered(qs: seq<SheetEntry>, us: seq<SheetEntry>, ps: seq<SheetEntry>, k: nat)
    requires k < |ps| && us == RemoveAt(ps, k)
    requires |qs| == |us| && forall j :: 0 <= j < |us| ==> qs[j] == us[j].(rid := RelId(j + 1))
    ensures |qs| == |ps| - 1
    ensures forall j :: 0 <= j < |qs| ==> qs[j] == (if j < k then ps[j] else ps[j + 1]).(rid := RelId(j + 1))
  {
  }

  /** Before renumbering, `removeSheet` has unset the sheet's part, its relationships part and its recorded path. */
  lemma UnlinkedDropsParts(p: Package, id: string)
    requires id in p.sheetPaths
    ensures var (u, err) := Unlinked(p, id);
      err.None? ==> (p.sheetPaths[id] !in u.parts && RelFilePath(p.sheetPaths[id]) !in u.parts &&
        id !in u.sheetPaths && u.parts.Keys <= p.parts.Keys)
  {
  }

  /**
   * `removeSheet` with an id no sheet has still removes the first content
   * type override (no override names the empty path the id gives).
   */
  lemma RemoveUnknownSheetDropsFirstOverride(p: Package, id: string)
    requires id !in p.sheetPaths && FirstSheetWithId(p.sheets, id, 0).None?
    requires forall j :: 0 <= j < |p.overrides| ==> p.overrides[j].partName != ""
    ensures Unlinked(p, id) == (p.(overrides := if |p.overrides| > 0 then p.overrides[1..] else []), None)
  {
    assert p.sheetPaths - {id} == p.sheetPaths;
    assert LastOverride(p.overrides, "").None?;
    assert RemoveAt(p.overrides, 0) == if |p.overrides| > 0 then p.overrides[1..] else [];
  }
}
