// The workbook as the library holds it: an object whose maps of parts,
// sheet paths and sheet objects its methods add to, unset and rename in
// place. Each method is proved against the function in `Workbooks` that
// states what it does to the package.

module WorkbookObjects {
  import opened Common
  import opened Paths
  import opened Worksheets
  import opened Workbooks
  import Address

  /** Every sheet part carries one of the handles `hs`. */
  predicate HandlesIn(parts: map<string, Part>, hs: set<nat>)
  {
    forall path :: path in parts && parts[path].SheetPart? ==> parts[path].handle in hs
  }

  class Workbook {
    /** `$arrXMLs`: the parts by absolute path. */
    var parts: map<string, Part>
    /** The `<sheets>` of workbook.xml. */
    var sheets: seq<SheetEntry>
    /** The relationships of workbook.xml. */
    var wbRels: seq<Rel>
    /** The `<Override>` elements of `[Content_Types].xml`. */
    var overrides: seq<Override>
    /** `$arrSheetPath`: the path of every sheet by sheetId. */
    var sheetPaths: map<string, string>
    var activeTab: Option<string>
    var app: App
    /** `$officeDocumentRelPath`. */
    const wbRelPath: string
    /** `$_cSheet`: the part `selectSheet` chose last. */
    var current: Part
    /** The worksheet objects, by the handle their parts carry. */
    var worksheets: map<nat, Worksheet>
    /** The handle the next cloned sheet gets. */
    var nextHandle: nat

    function Pkg(): Package
      reads this
    {
      Package(parts, sheets, wbRels, overrides, sheetPaths, activeTab, app, wbRelPath)
    }

    /** Every sheet part names a worksheet object, and every handle in use is below the next one. */
    ghost predicate Valid()
      reads this
    {
      HandlesIn(parts, worksheets.Keys) && forall h :: h in worksheets ==> h < nextHandle
    }

    /** A workbook over a loaded package and its worksheet objects; no sheet is selected yet. */
    constructor (p: Package, ws: map<nat, Worksheet>, next: nat)
      requires HandlesIn(p.parts, ws.Keys) && forall h :: h in ws ==> h < next
      ensures Pkg() == p && worksheets == ws && nextHandle == next && current == Null
      ensures Valid()
    {
      parts, sheets, wbRels, overrides := p.parts, p.sheets, p.wbRels, p.overrides;
      sheetPaths, activeTab, app, wbRelPath := p.sheetPaths, p.activeTab, p.app, p.wbRelPath;
      worksheets, nextHandle := ws, next;
      current := Null;
    }

    // -------------------------------------------------------------------
    // findSheetByName, selectSheet, renameSheet
    // -------------------------------------------------------------------

    /** `findSheetByName`: the loop over the sheet entries. */
    method FindSheetByName(name: string) returns (r: Option<string>)
      ensures r == SheetIdByName(sheets, name)
    {
      var ix := 0;
      while ix < |sheets|
        invariant 0 <= ix <= |sheets|
        invariant forall k :: 0 <= k < ix ==> sheets[k].name != name
      {
        if sheets[ix].name == name {
          return Some(sheets[ix].sheetId);
        }
        ix := ix + 1;
      }
      return None;
    }

    /** The index of the first sheet entry with the given sheetId. */
    method SheetIndex(id: string) returns (k: Option<nat>)
      ensures k == FirstSheetWithId(sheets, id, 0)
    {
      var ix := 0;
      while ix < |sheets|
        invariant 0 <= ix <= |sheets|
        invariant FirstSheetWithId(sheets, id, ix) == FirstSheetWithId(sheets, id, 0)
      {
        if sheets[ix].sheetId == id {
          return Some(ix);
        }
        ix := ix + 1;
      }
      return None;
    }

    /** `selectSheet`: the sheet becomes the current one, or nothing changes and the sheet is reported missing. */
    method SelectSheet(id: string) returns (err: Option<Error>)
      modifies this`current
      ensures SelectSheetSpec(Pkg(), id) == if err.None? then Ok(current) else Err(err.value)
      ensures err.Some? ==> current == old(current)
    {
      if id !in sheetPaths || sheetPaths[id] !in parts || parts[sheetPaths[id]].Null? {
        return Some(SheetNotFound(id));
      }
      current := parts[sheetPaths[id]];
      return None;
    }

    /** `updateAppXML`, on the counts. */
    method UpdateAppXML()
      modifies this`app
      ensures Pkg() == UpdateApp(old(Pkg()))
    {
      var sheetsOld := app.sheetCount;
      var allParts := app.titleCount;
      var otherStuff := allParts - sheetsOld;
      var sheetsNew := |sheetPaths|;
      // the old sheet titles are removed, then one title per sheet entry is added
      var titles := allParts - Address.Min(sheetsOld, allParts) + |sheets|;
      app := App(sheetsNew, titles, sheetsNew + otherStuff);
    }

    /** `renameSheet`. */
    method RenameSheet(id: string, newName: string) returns (err: Option<Error>)
      modifies this`sheets, this`app
      ensures (Pkg(), err) == RenameSheetSpec(old(Pkg()), id, newName)
    {
      if id !in sheetPaths || sheetPaths[id] !in parts || parts[sheetPaths[id]].Null? {
        return Some(SheetNotFound(id));
      }
      var k := SheetIndex(id);
      if k.Some? {
        sheets := sheets[k.value := sheets[k.value].(name := newName)];
      }
      UpdateAppXML();
      return None;
    }

    // -------------------------------------------------------------------
    // renameFile
    // -------------------------------------------------------------------

    /** `renameFile`, with a part renamed to its own name left where it is. */
    method RenameFile(from: string, to: string)
      requires Valid()
      modifies this`parts, this`overrides
      ensures Pkg() == MovePart(old(Pkg()), from, to)
      ensures Valid()
    {
      if from == to {
        return;
      }
      var part := if from in parts then parts[from] else Null;
      parts := parts[to := part] - {from};
      var os := overrides;
      var i := 0;
      while i < |os|
        invariant 0 <= i <= |os| == |overrides|
        invariant forall j :: 0 <= j < i ==> os[j] == RenamedOverrides(overrides, from, to)[j]
        invariant forall j :: i <= j < |os| ==> os[j] == overrides[j]
      {
        if os[i].partName == from {
          os := os[i := os[i].(partName := to)];
        }
        i := i + 1;
      }
      overrides := os;
    }

    // -------------------------------------------------------------------
    // updateWorkbookLinks
    // -------------------------------------------------------------------

    /** The inner loop over the workbook's relationships: the first worksheet relationship with the given Id. */
    method FindSheetRel(id: string) returns (j: Option<nat>)
      ensures j == FirstSheetRel(wbRels, id, 0)
    {
      var ix := 0;
      while ix < |wbRels|
        invariant 0 <= ix <= |wbRels|
        invariant FirstSheetRel(wbRels, id, ix) == FirstSheetRel(wbRels, id, 0)
      {
        if wbRels[ix].id == id && wbRels[ix].relType == WorksheetType {
          return Some(ix);
        }
        ix := ix + 1;
      }
      return None;
    }

    /**
     * The `i`-th sheet's worksheet relationship takes the id `rId<i>` and,
     * when that changes the id, the target `sheet<i>.xml`; the paths found
     * are carried on.
     */
    method RetargetSheet(oldId: string, i: nat, c: Carried) returns (c2: Carried)
      modifies this`wbRels
      ensures (wbRels, c2) == SheetTargets(old(wbRels), oldId, i, c)
    {
      var newId := RelId(i);
      var j := FindSheetRel(oldId);
      c2 := c;
      if j.Some? {
        var oldPath := wbRels[j.value].target;
        var newPath := if oldId != newId then Dirname(oldPath) + "/" + SheetFile(i) else oldPath;
        wbRels := wbRels[j.value := wbRels[j.value].(id := newId, target := newPath)];
        c2 := Carried(oldPath, newPath);
      }
      if !Address.Truthy(c2.newPath) {
        c2 := Carried("worksheets/" + SheetFile(i), "worksheets/" + SheetFile(i));
      }
    }

    /** The loop over a renamed sheet's relationships: targets renumbered to `n`, and the parts they name renamed. */
    method RenumberRelTargets(relPath: string, n: nat) returns (err: Option<Error>)
      requires Valid()
      modifies this`parts, this`overrides
      ensures (Pkg(), err) == RenumberSheetRels(old(Pkg()), relPath, n, true)
      ensures Valid()
    {
      hide RenumberRelAt, RenumberTarget, PathByRelTarget;
      if !(relPath in parts && parts[relPath].RelsPart? && |parts[relPath].rels| > 0) {
        return None;
      }
      var rels := parts[relPath].rels;
      ghost var p0 := Pkg();
      var m := 0;
      while m < |rels|
        invariant m <= |rels| && Valid()
        invariant RenumberRelsFrom(p0, relPath, rels, 0, n, true) == RenumberRelsFrom(Pkg(), relPath, rels, m, n, true)
      {
        err := RetargetRel(relPath, rels, m, RenumberTarget(rels[m].target, n), n);
        if err.Some? {
          return;
        }
        m := m + 1;
      }
      return None;
    }

    /** One turn of that loop: the `m`-th target is renumbered and the part it names renamed. */
    method RetargetRel(relPath: string, rels: seq<Rel>, m: nat, newTarget: string, n: nat) returns (err: Option<Error>)
      requires Valid() && m < |rels|
      modifies this`parts, this`overrides
      ensures (Pkg(), err) == RenumberRelAt(old(Pkg()), relPath, rels, m, newTarget, n, true)
      ensures Valid()
    {
      hide PathByRelTarget, MovePart, Retargeted;
      var oldTarget := rels[m].target;
      parts := parts[relPath := RelsPart(Retargeted(rels, m + 1, n))];
      var from := PathByRelTarget(relPath, oldTarget);
      if from.Err? {
        return Some(from.error);
      }
      var to := PathByRelTarget(relPath, newTarget);
      if to.Err? {
        return Some(to.error);
      }
      RenameFile(from.value, to.value);
      err := None;
    }

    /**
     * With the paths resolved: a renamed sheet's part moves, its path is
     * recorded, and its relationships are renumbered and moved beside it.
     */
    method PlaceSheet(id: string, renamed: bool, oldAbs: string, newAbs: string, i: nat) returns (err: Option<Error>)
      requires Valid()
      modifies this`parts, this`overrides, this`sheetPaths
      ensures (Pkg(), err) == MoveSheet(old(Pkg()), id, renamed, oldAbs, newAbs, i, true)
      ensures Valid()
    {
      hide RenumberSheetRels, MovePart, RelFilePath;
      if renamed {
        RenameFile(oldAbs, newAbs);
      }
      if newAbs !in parts {
        parts := parts[newAbs := Null];
      }
      sheetPaths := sheetPaths[id := newAbs];
      if !renamed {
        return None;
      }
      var relPath := RelFilePath(oldAbs);
      err := RenumberRelTargets(relPath, i);
      if err.Some? {
        return;
      }
      RenameFile(relPath, RelFilePath(newAbs));
    }

    /** One turn of the renumbering loop, for the sheet at index `k`. */
    method LinkSheet(k: nat, c: Carried) returns (c2: Carried, err: Option<Error>)
      requires Valid() && k < |sheets|
      modifies this`parts, this`overrides, this`sheetPaths, this`sheets, this`wbRels
      ensures Step(Pkg(), c2, err) == RelinkSheet(old(Pkg()), k, c, true)
      ensures Valid()
    {
      hide MoveSheet, PathByRelTarget, SheetTargets, RelId;
      var entry := sheets[k];
      var newId := RelId(k + 1);
      sheets := sheets[k := entry.(rid := newId)];
      c2 := RetargetSheet(entry.rid, k + 1, c);
      var oldAbs := PathByRelTarget(wbRelPath, c2.oldPath);
      if oldAbs.Err? {
        return c2, Some(oldAbs.error);
      }
      var newAbs := PathByRelTarget(wbRelPath, c2.newPath);
      if newAbs.Err? {
        return c2, Some(newAbs.error);
      }
      err := PlaceSheet(entry.sheetId, entry.rid != newId, oldAbs.value, newAbs.value, k + 1);
    }

    /** The loop over the workbook's relationships that gives the fixed parts the ids after the sheets'. */
    method FixRelIds(n: nat)
      modifies this`wbRels
      ensures wbRels == FixedRelIds(old(wbRels), n)
    {
      var rels := wbRels;
      var ix := 0;
      while ix < |rels|
        invariant 0 <= ix <= |rels| == |wbRels|
        invariant forall j :: 0 <= j < ix ==> rels[j] == FixedRelId(wbRels[j], n)
        invariant forall j :: ix <= j < |rels| ==> rels[j] == wbRels[j]
      {
        rels := rels[ix := FixedRelId(rels[ix], n)];
        ix := ix + 1;
      }
      wbRels := rels;
    }

    /** The turn of the renumbering loop for the sheet at index `k`, and what of the loop it leaves. */
    method LinkNext(k: nat, c: Carried) returns (c2: Carried, err: Option<Error>)
      requires Valid() && k < |sheets|
      modifies this`parts, this`overrides, this`sheetPaths, this`sheets, this`wbRels
      ensures |sheets| == |old(sheets)| && Valid()
      ensures err.Some? ==> RelinkLoop(old(Pkg()), k, c, true) == (Pkg(), err)
      ensures err.None? ==> RelinkLoop(old(Pkg()), k, c, true) == RelinkLoop(Pkg(), k + 1, c2, true)
    {
      hide RelinkSheet;
      c2, err := LinkSheet(k, c);
    }

    /** The renumbering loop over the sheets in document order. */
    method LinkSheets() returns (c: Carried, err: Option<Error>)
      requires Valid()
      modifies this`parts, this`overrides, this`sheetPaths, this`sheets, this`wbRels
      ensures err.Some? ==> RelinkLoop(old(Pkg()), 0, Carried("", ""), true) == (Pkg(), err)
      ensures err.None? ==> RelinkLoop(old(Pkg()), 0, Carried("", ""), true) == RelinkLoop(Pkg(), |sheets|, c, true)
      ensures Valid()
    {
      hide RelinkLoop, RelinkSheet;
      c := Carried("", "");
      var k := 0;
      while k < |sheets|
        invariant k <= |sheets| && Valid()
        invariant RelinkLoop(old(Pkg()), 0, Carried("", ""), true) == RelinkLoop(Pkg(), k, c, true)
        decreases |sheets| - k
      {
        c, err := LinkNext(k, c);
        if err.Some? {
          return;
        }
        k := k + 1;
      }
      err := None;
    }

    /**
     * `updateWorkbookLinks`: the active tab and the sheet maps are reset,
     * every sheet is renumbered in document order, then the fixed
     * relationships and app.xml follow.
     */
    method UpdateWorkbookLinks() returns (err: Option<Error>)
      requires Valid()
      modifies this`parts, this`overrides, this`sheetPaths, this`sheets, this`wbRels, this`activeTab, this`app
      ensures (Pkg(), err) == Relink(old(Pkg()))
      ensures Valid()
    {
      hide RelinkSheet, FixedRelIds, UpdateApp;
      activeTab := None;
      sheetPaths := map[];
      ghost var start := Pkg();
      assert start == RelinkStart(old(Pkg()));
      var c;
      c, err := LinkSheets();
      if err.Some? {
        return;
      }
      ghost var last := Pkg();
      ghost var done := UpdateApp(last.(wbRels := FixedRelIds(last.wbRels, |sheets| + 1)));
      assert RelinkLoop(start, 0, Carried("", ""), true) == (done, None);
      FixRelIds(|sheets| + 1);
      UpdateAppXML();
      assert Pkg() == done;
    }

    // -------------------------------------------------------------------
    // removeSheet
    // -------------------------------------------------------------------

    /** The loop over the removed sheet's relationships: the part each target names is unset. */
    method RemoveRelTargets(relsPath: string, rels: seq<Rel>) returns (err: Option<Error>)
      requires Valid()
      modifies this`parts
      ensures (parts, err) == RemoveTargets(old(parts), relsPath, rels, 0)
      ensures Valid()
    {
      hide PathByRelTarget;
      var m := 0;
      while m < |rels|
        invariant m <= |rels| && Valid()
        invariant RemoveTargets(old(parts), relsPath, rels, 0) == RemoveTargets(parts, relsPath, rels, m)
      {
        var path := PathByRelTarget(relsPath, rels[m].target);
        if path.Err? {
          return Some(path.error);
        }
        parts := parts - {path.value};
        m := m + 1;
      }
      return None;
    }

    /** The index of the first relationship of the workbook with the given Id. */
    method RelIndex(id: string) returns (j: Option<nat>)
      ensures j == FirstRelWithId(wbRels, id, 0)
    {
      var ix := 0;
      while ix < |wbRels|
        invariant 0 <= ix <= |wbRels|
        invariant FirstRelWithId(wbRels, id, ix) == FirstRelWithId(wbRels, id, 0)
      {
        if wbRels[ix].id == id {
          return Some(ix);
        }
        ix := ix + 1;
      }
      return None;
    }

    /** The loop over the content-type overrides: the index of the last one naming `path`, 0 when none does. */
    method LastOverrideIndex(path: string) returns (ixDel: nat)
      ensures ixDel == match LastOverride(overrides, path) case None => 0 case Some(j) => j
    {
      ixDel := 0;
      var n := 0;
      while n < |overrides|
        invariant n <= |overrides|
        invariant ixDel == match LastOverride(overrides[..n], path) case None => 0 case Some(j) => j
      {
        assert overrides[..n + 1][..n] == overrides[..n];
        if overrides[n].partName == path {
          ixDel := n;
        }
        n := n + 1;
      }
      assert overrides[..n] == overrides;
    }

    /** The sheet's entry, its relationship and its content type override are removed, and its path forgotten. */
    method DetachSheet(id: string, path: string)
      modifies this`sheetPaths, this`sheets, this`wbRels, this`overrides
      ensures Pkg() == Detach(old(Pkg()), id, path)
    {
      hide FirstSheetWithId, FirstRelWithId, LastOverride, RemoveAt;
      sheetPaths := sheetPaths - {id};
      var k := SheetIndex(id);
      if k.Some? {
        var j := RelIndex(sheets[k.value].rid);
        if j.Some? {
          wbRels := RemoveAt(wbRels, j.value);
        }
        sheets := RemoveAt(sheets, k.value);
      }
      var ixDel := LastOverrideIndex(path);
      overrides := RemoveAt(overrides, ixDel);
    }

    /** `removeSheet`. The id is not checked: an id no sheet has still costs the first override. */
    method RemoveSheet(id: string) returns (err: Option<Error>)
      requires Valid()
      modifies this`parts, this`overrides, this`sheetPaths, this`sheets, this`wbRels, this`activeTab, this`app
      ensures (Pkg(), err) == RemoveSheetSpec(old(Pkg()), id)
      ensures Valid()
    {
      hide Relink, Detach, RemoveTargets, RelFilePath;
      if id !in sheetPaths {
        DetachSheet(id, "");
      } else {
        var path := sheetPaths[id];
        var relsPath := RelFilePath(path);
        if relsPath in parts && parts[relsPath].RelsPart? {
          err := RemoveRelTargets(relsPath, parts[relsPath].rels);
          if err.Some? {
            return;
          }
        }
        parts := parts - {relsPath, path};
        DetachSheet(id, path);
      }
      assert Pkg() == Unlinked(old(Pkg()), id).0;
      err := UpdateWorkbookLinks();
    }

    // -------------------------------------------------------------------
    // cloneSheet
    // -------------------------------------------------------------------

    /** The loop over the sheets of `cloneSheet`: the largest sheetId, sheet file number and relationship number. */
    method SheetMaxima() returns (maxId: nat, maxFile: nat, maxRel: nat)
      ensures maxId == MaxSheetId(sheets, 1)
      ensures maxFile == MaxFileIndex(sheets, sheetPaths, 1)
      ensures maxRel == MaxRelIndex(sheets, 0)
    {
      hide SheetFileNumber, Basename, IntCast, RemoveAll;
      maxId, maxFile, maxRel := 1, 1, 0;
      var i := 0;
      assert sheets[i..] == sheets;
      while i < |sheets|
        invariant i <= |sheets|
        invariant MaxSheetId(sheets, 1) == MaxSheetId(sheets[i..], maxId)
        invariant MaxFileIndex(sheets, sheetPaths, 1) == MaxFileIndex(sheets[i..], sheetPaths, maxFile)
        invariant MaxRelIndex(sheets, 0) == MaxRelIndex(sheets[i..], maxRel)
      {
        var sheet := sheets[i];
        var id := IntCast(sheet.sheetId);
        maxId := if id > maxId then id else maxId;
        var path := if sheet.sheetId in sheetPaths then sheetPaths[sheet.sheetId] else "";
        var fileIx := SheetFileNumber(Basename(path), 0);
        maxFile := if fileIx > maxFile then fileIx else maxFile;
        var relIx := IntCast(RemoveAll(sheet.rid, "rId"));
        maxRel := if relIx > maxRel then relIx else maxRel;
        assert sheets[i..][1..] == sheets[i + 1..];
        i := i + 1;
      }
    }

    /** `cloneSheet` up to the renumbering: the copy of the sheet object gets the next handle. */
    method AddClone(origin: string, newName: string) returns (r: Result<string>)
      requires Valid()
      modifies this`parts, this`sheets, this`wbRels, this`overrides, this`worksheets, this`nextHandle
      ensures (Pkg(), r) == Cloned(old(Pkg()), origin, newName, SheetPart(old(nextHandle)))
      ensures Valid()
      ensures forall h :: h in old(worksheets) ==> h in worksheets && worksheets[h] == old(worksheets[h])
      ensures r.Ok? ==> IsSet(old(Pkg()), origin) && old(parts[sheetPaths[origin]]).SheetPart?
      ensures r.Ok? ==> old(nextHandle) in worksheets && fresh(worksheets[old(nextHandle)])
      ensures r.Ok? ==> worksheets[old(nextHandle)].State() == old(worksheets[parts[sheetPaths[origin]].handle].State())
    {
      hide AddCopy, MaxSheetId, MaxFileIndex, MaxRelIndex, SheetFile, RelId;
      if origin !in sheetPaths || sheetPaths[origin] !in parts || parts[sheetPaths[origin]].Null? {
        return Err(SheetNotFound(origin));
      }
      var originPath := sheetPaths[origin];
      var part := parts[originPath];
      if !part.SheetPart? {
        return Err(BrokenReference("sheet " + origin));
      }
      var maxId, maxFile, maxRel := SheetMaxima();
      var h := CopyWorksheet(part.handle);
      r := StoreCopy(originPath, newName, h, maxId + 1, SheetFile(maxFile + 1), RelId(maxRel + 1));
    }

    /** The sheet object under handle `h0` is copied; the copy gets the next handle. */
    method CopyWorksheet(h0: nat) returns (h: nat)
      requires Valid() && h0 in worksheets
      modifies this`worksheets, this`nextHandle
      ensures h == old(nextHandle) && nextHandle == h + 1
      ensures worksheets.Keys == old(worksheets).Keys + {h}
      ensures forall k :: k in old(worksheets) ==> worksheets[k] == old(worksheets[k])
      ensures fresh(worksheets[h]) && worksheets[h].State() == old(worksheets[h0].State())
      ensures Valid()
    {
      var copy := new Worksheet.Copy(worksheets[h0]);
      h := nextHandle;
      worksheets := worksheets[h := copy];
      nextHandle := nextHandle + 1;
    }

    /** The copy under handle `h` is stored next to the original and appended to the workbook. */
    method StoreCopy(originPath: string, newName: string, h: nat, newId: nat, file: string, rid: string) returns (r: Result<string>)
      requires Valid() && h in worksheets
      modifies this`parts, this`sheets, this`wbRels, this`overrides
      ensures (Pkg(), r) == AddCopy(old(Pkg()), originPath, newName, SheetPart(h), newId, file, rid)
      ensures Valid()
    {
      hide RelFilePath, Dirname, NatToString, CloneName;
      var newPath := Dirname(originPath) + "/" + file;
      parts := parts[newPath := SheetPart(h)];
      var relsPath := RelFilePath(originPath);
      if relsPath in parts && !parts[relsPath].Null? && !parts[relsPath].RelsPart? {
        return Err(BrokenReference("relationships " + relsPath));
      }
      if relsPath in parts && parts[relsPath].RelsPart? {
        parts := parts[RelFilePath(newPath) := parts[relsPath]];
      }
      AppendSheet(newName, newId, file, rid);
      r := Ok(NatToString(newId));
    }

    /** The new sheet's entry, its relationship from the workbook and its content type override are appended. */
    method AppendSheet(newName: string, newId: nat, file: string, rid: string)
      modifies this`sheets, this`wbRels, this`overrides
      ensures sheets == old(sheets) + [SheetEntry(rid, NatToString(newId), CloneName(newName, newId))]
      ensures wbRels == old(wbRels) + [Rel(rid, WorksheetType, "worksheets/" + file)]
      ensures overrides == old(overrides) + [Override("/xl/worksheets/" + file, WorksheetContentType)]
    {
      sheets := sheets + [SheetEntry(rid, NatToString(newId), CloneName(newName, newId))];
      wbRels := wbRels + [Rel(rid, WorksheetType, "worksheets/" + file)];
      overrides := overrides + [Override("/xl/worksheets/" + file, WorksheetContentType)];
    }

    /**
     * `cloneSheet`: the sheet object is copied under a new handle, the
     * workbook gains the copy, then everything is renumbered; the result is
     * the new sheetId.
     */
    method CloneSheet(origin: string, newName: string) returns (r: Result<string>)
      requires Valid()
      modifies this`parts, this`overrides, this`sheetPaths, this`sheets, this`wbRels, this`activeTab, this`app
      modifies this`worksheets, this`nextHandle
      ensures (Pkg(), r) == CloneSheetSpec(old(Pkg()), origin, newName, SheetPart(old(nextHandle)))
      ensures Valid()
      ensures forall h :: h in old(worksheets) ==> h in worksheets && worksheets[h] == old(worksheets[h])
      ensures r.Ok? ==> IsSet(old(Pkg()), origin) && old(parts[sheetPaths[origin]]).SheetPart?
      ensures r.Ok? ==> old(nextHandle) in worksheets && fresh(worksheets[old(nextHandle)])
      ensures r.Ok? ==> worksheets[old(nextHandle)].State() == old(worksheets[parts[sheetPaths[origin]].handle].State())
    {
      hide Relink, Cloned;
      r := AddClone(origin, newName);
      if r.Err? {
        return;
      }
      ghost var c := Pkg();
      var err := UpdateWorkbookLinks();
      assert (Pkg(), err) == Relink(c);
      if err.Some? {
        r := Err(err.value);
      }
    }
  }
}
