/**
 * Part-path arithmetic of the package: PHP's `dirname`, the resolution of a
 * relationship target against the relationships part that holds it
 * (`getPathByRelTarget`), and the relationships part that belongs to a part
 * (`getRelFilePath`).
 */
module Paths {
  import opened Common

  /** `rtrim(s, "/")`. */
  function TrimTrailingSlashes(s: string): (t: string)
    ensures |t| <= |s| && t == s[..|t|]
    ensures |t| == 0 || t[|t| - 1] != '/'
    ensures forall i :: |t| <= i < |s| ==> s[i] == '/'
  {
    if |s| == 0 || s[|s| - 1] != '/' then s else TrimTrailingSlashes(s[..|s| - 1])
  }

  /** `ltrim(s, "/")`. */
  function TrimLeadingSlashes(s: string): (t: string)
    ensures |t| <= |s| && t == s[|s| - |t|..]
    ensures |t| == 0 || t[0] != '/'
  {
    if |s| == 0 || s[0] != '/' then s else TrimLeadingSlashes(s[1..])
  }

  /** Index of the last `/` in `s`, if any. */
  function LastSlash(s: string): (r: Option<nat>)
    ensures r.Some? ==> r.value < |s| && s[r.value] == '/'
    ensures r.Some? ==> forall i :: r.value < i < |s| ==> s[i] != '/'
    ensures r.None? ==> forall i :: 0 <= i < |s| ==> s[i] != '/'
  {
    if |s| == 0 then None
    else if s[|s| - 1] == '/' then Some(|s| - 1)
    else LastSlash(s[..|s| - 1])
  }

  /**
   * PHP's `dirname` on a POSIX path: trailing slashes are ignored, the last
   * component is dropped, and what remains loses its trailing slashes; an
   * absolute path with nothing left gives `/`, a relative one `.`.
   */
  function Dirname(p: string): string
  {
    if p == "" then ""
    else
      var t := TrimTrailingSlashes(p);
      if t == "" then "/"
      else match LastSlash(t)
        case None => "."
        case Some(k) =>
          var d := TrimTrailingSlashes(t[..k]);
          if d == "" then "/" else d
  }

  /** The text after the last `/` of `p`. */
  function Basename(p: string): string
  {
    match LastSlash(p)
    case None => p
    case Some(k) => p[k + 1..]
  }

  /** `preg_replace("/(_rels)$/", "", s)`: a trailing `_rels` is removed. */
  function DropRelsSuffix(s: string): string
  {
    if |s| >= 5 && s[|s| - 5..] == "_rels" then s[..|s| - 5] else s
  }

  /** The directory segments a relationships part resolves its targets from. */
  function BaseSegments(relFilePath: string): seq<string>
  {
    Split(TrimTrailingSlashes(DropRelsSuffix(Dirname(relFilePath))), '/')
  }

  // ---------------------------------------------------------------------
  // getPathByRelTarget as written: a PHP array used as a stack
  // ---------------------------------------------------------------------

  /**
   * A PHP list: its entries in insertion order, each with its integer key,
   * and the next key `$a[] = v` will use. `unset` does not lower `next`.
   */
  datatype PhpList = PhpList(entries: seq<(int, string)>, next: int)

  function PhpListOf(items: seq<string>): (l: PhpList)
    ensures |l.entries| == |items| && l.next == |items|
    ensures forall i :: 0 <= i < |items| ==> l.entries[i] == (i, items[i])
  {
    if |items| == 0 then PhpList([], 0)
    else
      var l := PhpListOf(items[..|items| - 1]);
      PhpList(l.entries + [(|items| - 1, items[|items| - 1])], |items|)
  }

  function Values(entries: seq<(int, string)>): (vs: seq<string>)
    ensures |vs| == |entries|
    ensures forall i :: 0 <= i < |entries| ==> vs[i] == entries[i].1
  {
    if |entries| == 0 then [] else Values(entries[..|entries| - 1]) + [entries[|entries| - 1].1]
  }

  lemma ValuesOfPhpList(items: seq<string>)
    ensures Values(PhpListOf(items).entries) == items
  {
    var vs := Values(PhpListOf(items).entries);
    assert forall i :: 0 <= i < |items| ==> vs[i] == items[i];
  }

  function Push(l: PhpList, v: string): PhpList
  {
    PhpList(l.entries + [(l.next, v)], l.next + 1)
  }

  /** Position of the entry with key `key`, if any. */
  function FindKey(entries: seq<(int, string)>, key: int): (r: Option<nat>)
    ensures r.Some? ==> r.value < |entries| && entries[r.value].0 == key
    ensures r.None? ==> forall i :: 0 <= i < |entries| ==> entries[i].0 != key
  {
    if |entries| == 0 then None
    else if entries[|entries| - 1].0 == key then Some(|entries| - 1)
    else FindKey(entries[..|entries| - 1], key)
  }

  /** The `..` step: unset key `count - 1` if it is set, otherwise fail. */
  function PopAsWritten(l: PhpList, target: string): Result<PhpList>
  {
    match FindKey(l.entries, |l.entries| - 1)
    case None => Err(PathAboveRoot(target))
    case Some(k) => Ok(PhpList(l.entries[..k] + l.entries[k + 1..], l.next))
  }

  function WalkAsWritten(l: PhpList, segments: seq<string>, target: string): Result<PhpList>
    decreases |segments|
  {
    if |segments| == 0 then Ok(l)
    else if segments[0] == "." then WalkAsWritten(l, segments[1..], target)
    else if segments[0] == ".." then
      match PopAsWritten(l, target)
      case Err(e) => Err(e)
      case Ok(l') => WalkAsWritten(l', segments[1..], target)
    else WalkAsWritten(Push(l, segments[0]), segments[1..], target)
  }

  /** `getPathByRelTarget` as the library writes it. */
  function PathByRelTargetAsWritten(relFilePath: string, target: string): Result<string>
  {
    match WalkAsWritten(PhpListOf(BaseSegments(relFilePath)), Split(TrimLeadingSlashes(target), '/'), target)
    case Err(e) => Err(e)
    case Ok(l) => Ok(Join(Values(l.entries), '/'))
  }

  // ---------------------------------------------------------------------
  // getPathByRelTarget as intended: a plain stack of segments
  // ---------------------------------------------------------------------

  /** Apply the segments of a target to a directory stack; `..` on an empty stack fails. */
  function Walk(stack: seq<string>, segments: seq<string>, target: string): (r: Result<seq<string>>)
    ensures r.Err? ==> r.error == PathAboveRoot(target)
    decreases |segments|
  {
    if |segments| == 0 then Ok(stack)
    else if segments[0] == "." then Walk(stack, segments[1..], target)
    else if segments[0] == ".." then
      if |stack| == 0 then Err(PathAboveRoot(target)) else Walk(stack[..|stack| - 1], segments[1..], target)
    else Walk(stack + [segments[0]], segments[1..], target)
  }

  /**
   * The path of the part a relationship target names: the target's segments
   * applied to the directory of the relationships part's owner, with `.`
   * skipped and `..` going up one directory.
   */
  function PathByRelTarget(relFilePath: string, target: string): Result<string>
  {
    match Walk(BaseSegments(relFilePath), Split(TrimLeadingSlashes(target), '/'), target)
    case Err(e) => Err(e)
    case Ok(stack) => Ok(Join(stack, '/'))
  }

  /** Plain segments: no `.` or `..`. */
  predicate PlainSegments(segments: seq<string>)
  {
    forall i :: 0 <= i < |segments| ==> segments[i] != "." && segments[i] != ".."
  }

  /** Plain segments are pushed one after the other. */
  lemma {:induction false} WalkPlain(stack: seq<string>, segments: seq<string>, target: string)
    requires PlainSegments(segments)
    ensures Walk(stack, segments, target) == Ok(stack + segments)
    decreases |segments|
  {
    if |segments| > 0 {
      WalkPlain(stack + [segments[0]], segments[1..], target);
      assert stack + [segments[0]] + segments[1..] == stack + segments;
    } else {
      assert stack + segments == stack;
    }
  }

  /** Both versions agree step by step as long as there is no `..`. */
  lemma {:induction false} WalkAsWrittenPlain(stack: seq<string>, segments: seq<string>, target: string)
    requires PlainSegments(segments)
    ensures WalkAsWritten(PhpListOf(stack), segments, target) == Ok(PhpListOf(stack + segments))
    decreases |segments|
  {
    if |segments| > 0 {
      if segments[0] == "." {
      } else {
        assert Push(PhpListOf(stack), segments[0]) == PhpListOf(stack + [segments[0]]);
        WalkAsWrittenPlain(stack + [segments[0]], segments[1..], target);
        assert stack + [segments[0]] + segments[1..] == stack + segments;
      }
    } else {
      assert stack + segments == stack;
    }
  }

  /** Without `.` and `..` in the target the two versions give the same path. */
  lemma PathByRelTargetAgrees(relFilePath: string, target: string)
    requires PlainSegments(Split(TrimLeadingSlashes(target), '/'))
    ensures PathByRelTargetAsWritten(relFilePath, target) == PathByRelTarget(relFilePath, target)
  {
    var base, segs := BaseSegments(relFilePath), Split(TrimLeadingSlashes(target), '/');
    WalkPlain(base, segs, target);
    WalkAsWrittenPlain(base, segs, target);
    ValuesOfPhpList(base + segs);
  }

  /** `..` on an empty stack is the only way resolution fails. */
  lemma {:induction false} WalkAboveRoot(target: string)
    ensures Walk([], [".."], target) == Err(PathAboveRoot(target))
    ensures Walk(["", "d"], ["..", ".."], target) == Ok([])
    ensures Walk(["", "d"], ["..", "..", ".."], target) == Err(PathAboveRoot(target))
  {
    assert ["..", ".."][1..] == [".."];
    assert ["..", "..", ".."][1..] == ["..", ".."];
  }

  // ---------------------------------------------------------------------
  // getRelFilePath
  // ---------------------------------------------------------------------

  predicate OccursAt(s: string, pat: string, i: nat)
  {
    i + |pat| <= |s| && s[i..i + |pat|] == pat
  }

  /** `str_replace(pat, "", s)`: every non-overlapping occurrence of `pat`, from the left, is removed. */
  function RemoveAll(s: string, pat: string): string
    decreases |s|
  {
    if |pat| == 0 || |s| == 0 then s
    else if OccursAt(s, pat, 0) then RemoveAll(s[|pat|..], pat)
    else [s[0]] + RemoveAll(s[1..], pat)
  }

  lemma {:induction false} RemoveAllAbsent(s: string, pat: string)
    requires forall i :: 0 <= i <= |s| ==> !OccursAt(s, pat, i)
    ensures RemoveAll(s, pat) == s
    decreases |s|
  {
    if |pat| > 0 && |s| > 0 {
      forall i | 0 <= i <= |s[1..]|
        ensures !OccursAt(s[1..], pat, i)
      {
        assert !OccursAt(s, pat, i + 1);
        if i + |pat| <= |s[1..]| {
          assert s[1..][i..i + |pat|] == s[i + 1..i + 1 + |pat|];
        }
      }
      RemoveAllAbsent(s[1..], pat);
      assert [s[0]] + s[1..] == s;
    }
  }

  /** `getRelFilePath` as the library writes it: the directory text is removed from the whole path. */
  function RelFilePathAsWritten(xmlPath: string): string
  {
    var dir := Dirname(xmlPath);
    dir + "/_rels" + RemoveAll(xmlPath, dir) + ".rels"
  }

  /** The relationships part of a part: `_rels/<name>.rels` beside it. */
  function RelFilePath(xmlPath: string): string
  {
    var dir := Dirname(xmlPath);
    (if dir == "/" then "" else dir) + "/_rels/" + Basename(xmlPath) + ".rels"
  }

  /** A file name: non-empty, with no `/`. */
  predicate IsName(name: string)
  {
    |name| > 0 && forall i :: 0 <= i < |name| ==> name[i] != '/'
  }

  /** A directory path as the package writes them: empty for the root, or without a trailing `/`. */
  predicate IsDirectory(dir: string)
  {
    |dir| == 0 || dir[|dir| - 1] != '/'
  }

  lemma DirnameOfChild(dir: string, name: string)
    requires IsDirectory(dir) && IsName(name)
    ensures Dirname(dir + "/" + name) == if dir == "" then "/" else dir
    ensures Basename(dir + "/" + name) == name
  {
    var p := dir + "/" + name;
    assert TrimTrailingSlashes(p) == p;
    assert LastSlash(p) == Some(|dir|) by {
      LastSlashAfter(dir + "/", name);
    }
    assert p[..|dir|] == dir;
    assert p[|dir| + 1..] == name;
  }

  lemma {:induction false} LastSlashAfter(a: string, name: string)
    requires |a| > 0 && a[|a| - 1] == '/'
    requires forall i :: 0 <= i < |name| ==> name[i] != '/'
    ensures LastSlash(a + name) == Some(|a| - 1)
    decreases |name|
  {
    if |name| > 0 {
      assert (a + name)[..|a + name| - 1] == a + name[..|name| - 1];
      LastSlashAfter(a, name[..|name| - 1]);
    } else {
      assert a + name == a;
    }
  }

  /** The relationships part of `dir/name` is `dir/_rels/name.rels`. */
  lemma RelFilePathOfChild(dir: string, name: string)
    requires IsDirectory(dir) && IsName(name)
    ensures RelFilePath(dir + "/" + name) == dir + "/_rels/" + name + ".rels"
  {
    DirnameOfChild(dir, name);
  }

  /**
   * Resolving a part's own file name against the part's relationships part
   * gives the part back: `getRelFilePath` and `getPathByRelTarget` agree on
   * where a part lives.
   */
  lemma {:induction false} RelFilePathRoundTrip(dir: string, name: string)
    requires IsDirectory(dir) && IsName(name) && name != "." && name != ".."
    ensures PathByRelTarget(RelFilePath(dir + "/" + name), name) == Ok(dir + "/" + name)
  {
    RelFilePathOfChild(dir, name);
    BaseSegmentsOfRels(dir, name);
    assert TrimLeadingSlashes(name) == name;
    SplitWithoutSeparator(name, '/');
    WalkPlain(Split(dir, '/'), [name], name);
    JoinAppend(Split(dir, '/'), name, '/');
    JoinSplit(dir, '/');
  }

  /** The relationships part `dir/_rels/name.rels` resolves its targets from `dir`. */
  lemma BaseSegmentsOfRels(dir: string, name: string)
    requires IsDirectory(dir) && IsName(name)
    ensures BaseSegments(dir + "/_rels/" + name + ".rels") == Split(dir, '/')
  {
    var rels := dir + "/_rels/" + name + ".rels";
    var relsDir := (dir + "/") + "_rels";
    var file := name + ".rels";
    RelsPathShape(dir, name);
    assert IsName(file) by {
      forall i | 0 <= i < |file| ensures file[i] != '/' {
        if i < |name| { assert file[i] == name[i]; }
      }
    }
    DirnameOfChild(relsDir, file);
    assert Dirname(rels) == relsDir;
    DropRelsOfRelsDir(dir + "/");
    assert TrimTrailingSlashes(dir + "/") == dir by {
      assert (dir + "/")[..|dir + "/"| - 1] == dir;
      assert TrimTrailingSlashes(dir) == dir;
    }
  }

  lemma RelsPathShape(dir: string, name: string)
    ensures dir + "/_rels/" + name + ".rels" == ((dir + "/") + "_rels") + "/" + (name + ".rels")
  {
  }

  lemma DropRelsOfRelsDir(a: string)
    ensures DropRelsSuffix(a + "_rels") == a
  {
    var s := a + "_rels";
    assert s[|s| - 5..] == "_rels";
    assert s[..|s| - 5] == a;
  }

  lemma {:induction false} JoinAppend(parts: seq<string>, last: string, sep: char)
    requires |parts| >= 1
    ensures Join(parts + [last], sep) == Join(parts, sep) + [sep] + last
    decreases |parts|
  {
    if |parts| == 1 {
      assert (parts + [last])[1..] == [last];
    } else {
      assert (parts + [last])[1..] == parts[1..] + [last];
      JoinAppend(parts[1..], last, sep);
    }
  }

  /**
   * The library's version agrees with the intended one when the directory
   * text does not occur again in `/<name>`.
   */
  lemma RelFilePathAsWrittenAgrees(dir: string, name: string)
    requires IsDirectory(dir) && IsName(name) && dir != ""
    requires forall i :: 0 <= i <= |"/" + name| ==> !OccursAt("/" + name, dir, i)
    ensures RelFilePathAsWritten(dir + "/" + name) == RelFilePath(dir + "/" + name)
  {
    DirnameOfChild(dir, name);
    var p := dir + "/" + name;
    assert OccursAt(p, dir, 0);
    assert p[|dir|..] == "/" + name;
    RemoveAllAbsent("/" + name, dir);
    RelsSlash(dir, name);
  }

  lemma RelsSlash(dir: string, name: string)
    ensures dir + "/_rels" + ("/" + name) + ".rels" == dir + "/_rels/" + name + ".rels"
  {
    assert "/_rels" + "/" == "/_rels/";
  }

  // ---------------------------------------------------------------------
  // Where the library's versions differ from the intended ones
  // ---------------------------------------------------------------------

  /**
   * A `..` after a `..` and a plain segment fails in the library's version:
   * the first `..` unsets the last key but the next push takes a fresh key,
   * so the second `..` finds no entry under key `count - 1`. The intended
   * stack goes up twice.
   */
  lemma {:induction false} UpTwiceAfterPush(base: seq<string>, a: string, b: string, target: string)
    requires |base| >= 1
    requires a != "." && a != ".." && b != "." && b != ".."
    ensures WalkAsWritten(PhpListOf(base), ["..", a, "..", b], target) == Err(PathAboveRoot(target))
    ensures Walk(base, ["..", a, "..", b], target) == Ok(base[..|base| - 1] + [b])
  {
    UpTwiceAfterPushAsWritten(base, a, b, target);
    UpTwiceAfterPushIntended(base, a, b, target);
  }

  lemma UpTwiceAfterPushAsWritten(base: seq<string>, a: string, b: string, target: string)
    requires |base| >= 1
    requires a != "." && a != ".."
    ensures WalkAsWritten(PhpListOf(base), ["..", a, "..", b], target) == Err(PathAboveRoot(target))
  {
    var n := |base|;
    var segs := ["..", a, "..", b];
    var l0 := PhpListOf(base);
    assert l0.entries[n - 1].0 == n - 1;
    assert FindKey(l0.entries, n - 1) == Some(n - 1);
    var l1 := PhpList(l0.entries[..n - 1], n);
    assert l0.entries[..n - 1] + l0.entries[n..] == l0.entries[..n - 1];
    assert PopAsWritten(l0, target) == Ok(l1);
    var l2 := Push(l1, a);
    assert forall i :: 0 <= i < |l2.entries| ==> l2.entries[i].0 != n - 1;
    assert PopAsWritten(l2, target) == Err(PathAboveRoot(target));
    assert WalkAsWritten(l2, ["..", b], target) == Err(PathAboveRoot(target));
    assert segs[1..] == [a, "..", b] && segs[1..][1..] == ["..", b];
    assert WalkAsWritten(l1, [a, "..", b], target) == Err(PathAboveRoot(target));
  }

  lemma UpTwiceAfterPushIntended(base: seq<string>, a: string, b: string, target: string)
    requires |base| >= 1
    requires a != "." && a != ".." && b != "." && b != ".."
    ensures Walk(base, ["..", a, "..", b], target) == Ok(base[..|base| - 1] + [b])
  {
    var n := |base|;
    var segs := ["..", a, "..", b];
    assert segs[1..] == [a, "..", b] && segs[1..][1..] == ["..", b] && segs[1..][1..][1..] == [b];
    assert Walk(base[..n - 1], [b], target) == Ok(base[..n - 1] + [b]) by {
      assert [b][1..] == [];
    }
    assert (base[..n - 1] + [a])[..n - 1] == base[..n - 1];
    assert Walk(base[..n - 1] + [a], ["..", b], target) == Ok(base[..n - 1] + [b]);
  }

  /**
   * From any relationships part `dir/_rels/name.rels`, the target
   * `../a/../b` names `b` one directory above `dir`, but the library's
   * version fails.
   */
  lemma {:induction false} UpTwiceFromRelsPart(dir: string, name: string, a: string, b: string)
    requires IsDirectory(dir) && IsName(name)
    requires IsName(a) && a != "." && a != ".." && IsName(b) && b != "." && b != ".."
    ensures var base := Split(dir, '/');
      && PathByRelTargetAsWritten(dir + "/_rels/" + name + ".rels", "../" + a + "/../" + b)
           == Err(PathAboveRoot("../" + a + "/../" + b))
      && PathByRelTarget(dir + "/_rels/" + name + ".rels", "../" + a + "/../" + b)
           == Ok(Join(base[..|base| - 1] + [b], '/'))
  {
    var t := "../" + a + "/../" + b;
    BaseSegmentsOfRels(dir, name);
    SplitTarget(a, b);
    assert t[0] == '.';
    assert TrimLeadingSlashes(t) == t;
    UpTwiceAfterPush(Split(dir, '/'), a, b, t);
  }

  lemma SplitTarget(a: string, b: string)
    requires IsName(a) && IsName(b)
    ensures Split("../" + a + "/../" + b, '/') == ["..", a, "..", b]
  {
    SplitWithoutSeparator(b, '/');
    SplitAtSeparator("..", b, '/');
    SplitAtSeparator(a, ".." + ['/'] + b, '/');
    SplitAtSeparator("..", a + ['/'] + (".." + ['/'] + b), '/');
    assert "../" + a + "/../" + b == ".." + ['/'] + (a + ['/'] + (".." + ['/'] + b));
  }

  /**
   * When the directory's text occurs again at the start of the file name,
   * the library removes it there too: `/d/` + `d<rest>` gets the
   * relationships part `/d/_rels<rest>.rels` instead of
   * `/d/_rels/d<rest>.rels`.
   */
  lemma {:induction false} RelFilePathRepeatedDirectory(d: string, rest: string)
    requires IsName(d) && IsName(rest)
    ensures RelFilePathAsWritten("/" + d + "/" + d + rest) == "/" + d + "/_rels" + rest + ".rels"
    ensures RelFilePath("/" + d + "/" + d + rest) == "/" + d + "/_rels/" + d + rest + ".rels"
  {
    var dir := "/" + d;
    AppendAssociates(dir + "/", d, rest);
    NameConcat(d, rest);
    DirnameOfChild(dir, d + rest);
    RemoveRepeatedDirectory(d, rest);
    AppendAssociates(dir + "/_rels/", d, rest);
  }

  lemma NameConcat(a: string, b: string)
    requires IsName(a) && IsName(b)
    ensures IsName(a + b)
  {
    forall i | 0 <= i < |a + b| ensures (a + b)[i] != '/' {
      if i < |a| { assert (a + b)[i] == a[i]; } else { assert (a + b)[i] == b[i - |a|]; }
    }
  }

  lemma RemoveRepeatedDirectory(d: string, rest: string)
    requires IsName(d) && IsName(rest)
    ensures RemoveAll("/" + d + "/" + d + rest, "/" + d) == rest
  {
    var dir := "/" + d;
    var p := "/" + d + "/" + d + rest;
    var q := "/" + d + rest;
    assert OccursAt(p, dir, 0);
    assert p[|dir|..] == q;
    assert OccursAt(q, dir, 0);
    assert q[|dir|..] == rest;
    forall i | 0 <= i <= |rest|
      ensures !OccursAt(rest, dir, i)
    {
      if i < |rest| { assert rest[i] != '/'; }
    }
    RemoveAllAbsent(rest, dir);
  }
}
