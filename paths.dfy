/** The part of Rust's `std::path` on Unix that the back end relies on:
    `join`, `file_name`, `file_stem`, `extension` and `with_extension`. Paths
    are plain strings with `/` as separator. */
module Paths {
  import opened Wrappers

  predicate IsAbsolute(p: string) {
    |p| > 0 && p[0] == '/'
  }

  /** `base.join(p)`: an absolute `p` replaces `base`; otherwise one separator
      is put between them unless `base` is empty or already ends with one. */
  function Join(base: string, p: string): (r: string)
    ensures IsAbsolute(p) ==> r == p
    ensures !IsAbsolute(p) && base != "" && base[|base| - 1] != '/' ==> r == base + "/" + p
  {
    if IsAbsolute(p) || base == "" then p
    else if base[|base| - 1] == '/' then base + p
    else base + "/" + p
  }

  /** A directory path as `tempfile` hands it out: absolute, with no trailing separator. */
  predicate IsDirPath(d: string) {
    IsAbsolute(d) && d[|d| - 1] != '/'
  }

  /** `p` lies strictly inside directory `d`. */
  predicate Under(p: string, d: string) {
    |d| + 1 <= |p| && p[..|d| + 1] == d + "/"
  }

  /** An enclosed name joined to a directory stays inside that directory.
      Paths are compared as text; since an enclosed name has no `..`
      segment, the textual prefix is real containment. */
  lemma JoinRelativeUnder(d: string, name: string)
    requires IsDirPath(d) && Enclosed(name)
    ensures Under(Join(d, name), d)
  {
    assert Join(d, name)[..|d| + 1] == d + "/";
  }

  /** Different relative names in one directory never share a path. */
  lemma JoinInjective(d: string, a: string, b: string)
    requires !IsAbsolute(a) && !IsAbsolute(b)
    ensures Join(d, a) == Join(d, b) <==> a == b
  {
    var pre := if d == "" then "" else if d[|d| - 1] == '/' then d else d + "/";
    assert Join(d, a) == pre + a && Join(d, b) == pre + b;
    if Join(d, a) == Join(d, b) {
      assert a == (pre + a)[|pre|..];
      assert b == (pre + b)[|pre|..];
    }
  }

  /** Where the last segment of `p` starts: just after its last separator,
      or 0 when it has none. */
  function SegmentStart(p: string): (k: nat)
    ensures k <= |p|
    ensures k == 0 || p[k - 1] == '/'
    ensures forall j :: k <= j < |p| ==> p[j] != '/'
  {
    if p == [] || p[|p| - 1] == '/' then |p|
    else SegmentStart(p[..|p| - 1])
  }

  /** Some segment of `name` is `..`. */
  predicate HasParentSegment(name: string)
    decreases |name|
  {
    var k := SegmentStart(name);
    name[k..] == ".." || (k > 0 && HasParentSegment(name[..k - 1]))
  }

  /** A relative name that cannot climb out of the directory it is joined
      to. This is stricter than the `zip` crate's `enclosed_name`, which
      also accepts a `..` that does not leave the directory (`a/../b`). */
  predicate Enclosed(name: string) {
    !IsAbsolute(name) && !HasParentSegment(name)
  }

  /** A single plain segment is enclosed. */
  lemma PlainNameEnclosed(name: string)
    requires name != "" && name[0] != '/' && name != ".."
    requires forall j :: 0 <= j < |name| ==> name[j] != '/'
    ensures Enclosed(name)
  {
    SegmentStartUnique(name, 0);
    assert name[0..] == name;
  }

  /** A name with a `..` segment is not enclosed. */
  lemma ParentNotEnclosed(rest: string)
    ensures !Enclosed("../" + rest)
  {
    var name := "../" + rest;
    assert name[..2] == ".." && name[2] == '/';
    ParentPrefix(name);
  }

  /** A name beginning with the segment `..` has a `..` segment. */
  lemma {:induction false} ParentPrefix(name: string)
    requires |name| >= 2 && name[..2] == ".." && (|name| == 2 || name[2] == '/')
    ensures HasParentSegment(name)
    decreases |name|
  {
    var k := SegmentStart(name);
    if name[k..] != ".." && k > 2 {
      assert name[..k - 1][..2] == "..";
      ParentPrefix(name[..k - 1]);
    }
  }

  /** The split of `p` into the text before its file name and the file name
      itself, following Rust's component rules: trailing separators and `.`
      components are skipped; a last component `..`, a root or an empty path
      has no file name. */
  function SplitFileName(p: string): (r: Option<(string, string)>)
    ensures r.Some? ==> r.value.1 != "" && r.value.1 != "." && r.value.1 != ".."
    ensures r.Some? ==> forall j :: 0 <= j < |r.value.1| ==> r.value.1[j] != '/'
    ensures r.Some? ==> r.value.0 == "" || r.value.0[|r.value.0| - 1] == '/'
    ensures r.Some? ==> r.value.0 + r.value.1 <= p
    decreases |p|
  {
    if p == [] then None
    else if p[|p| - 1] == '/' then SplitFileName(p[..|p| - 1])
    else
      var k := SegmentStart(p);
      var last := p[k..];
      if last == "." then SplitFileName(p[..|p| - 1])
      else if last == ".." then None
      else
        assert p[..k] + last == p;
        Some((p[..k], last))
  }

  /** `Path::file_name`. */
  function FileName(p: string): Option<string> {
    match SplitFileName(p)
    case Some((_, name)) => Some(name)
    case None => None
  }

  /** The position of the last `.` in `name`, if any. */
  function LastDot(name: string): (r: Option<nat>)
    ensures r.Some? ==> r.value < |name| && name[r.value] == '.'
    ensures r.Some? ==> forall j :: r.value < j < |name| ==> name[j] != '.'
    ensures r.None? ==> forall j :: 0 <= j < |name| ==> name[j] != '.'
  {
    if name == [] then None
    else if name[|name| - 1] == '.' then Some(|name| - 1)
    else LastDot(name[..|name| - 1])
  }

  /** Stem of a file name: the text before the last dot, unless the dot is
      the first character (a hidden file) or there is none. */
  function NameStem(name: string): string {
    match LastDot(name)
    case Some(i) => if i == 0 then name else name[..i]
    case None => name
  }

  /** Extension of a file name: the text after the last dot, when the text
      before it is not empty. */
  function NameExtension(name: string): (r: Option<string>)
    ensures r.Some? ==> name == NameStem(name) + "." + r.value
    ensures r.Some? ==> NameStem(name) != "" && forall j :: 0 <= j < |r.value| ==> r.value[j] != '.'
    ensures r.None? ==> NameStem(name) == name
  {
    match LastDot(name)
    case Some(i) =>
      if i == 0 then None
      else
        assert name == name[..i] + "." + name[i + 1..];
        Some(name[i + 1..])
    case None => None
  }

  /** `Path::file_stem`. */
  function FileStem(p: string): (r: Option<string>)
    ensures r.Some? <==> FileName(p).Some?
    ensures r.Some? ==> r.value != "" && r.value <= FileName(p).value
    ensures r.Some? ==> forall j :: 0 <= j < |r.value| ==> r.value[j] != '/'
  {
    match FileName(p)
    case Some(name) =>
      NameStemShape(name);
      Some(NameStem(name))
    case None => None
  }

  /** `Path::extension`. */
  function Extension(p: string): Option<string> {
    match FileName(p)
    case Some(name) => NameExtension(name)
    case None => None
  }

  /** `Path::with_extension`: cut the path right after the file stem and append
      `.ext` (nothing when `ext` is empty); a path without a file name is
      returned as it is. */
  function WithExtension(p: string, ext: string): (r: string)
    ensures SplitFileName(p).None? ==> r == p
    ensures SplitFileName(p).Some? ==> var dir := SplitFileName(p).value.0;
      |dir| <= |r| && r[..|dir|] == dir
  {
    match SplitFileName(p)
    case Some((dir, name)) => dir + NameStem(name) + (if ext == "" then "" else "." + ext)
    case None => p
  }

  /** An extension holds no dot, and the file name is the stem, a dot and
      the extension. */
  lemma ExtensionShape(p: string)
    requires Extension(p).Some?
    ensures FileName(p).Some? && FileStem(p).Some?
    ensures FileName(p).value == FileStem(p).value + "." + Extension(p).value
    ensures forall j :: 0 <= j < |Extension(p).value| ==> Extension(p).value[j] != '.'
  {
  }

  /** The position found by SegmentStart is the only one with its properties. */
  lemma SegmentStartUnique(p: string, k: nat)
    requires k <= |p| && (k == 0 || p[k - 1] == '/')
    requires forall j :: k <= j < |p| ==> p[j] != '/'
    ensures SegmentStart(p) == k
  {
  }

  /** A file name placed after a directory prefix is found again as the file name. */
  lemma SplitAfterDir(dir: string, name: string)
    requires dir == "" || dir[|dir| - 1] == '/'
    requires name != "" && name != "." && name != ".."
    requires forall j :: 0 <= j < |name| ==> name[j] != '/'
    ensures SplitFileName(dir + name) == Some((dir, name))
  {
    var q := dir + name;
    assert q[|q| - 1] == name[|name| - 1];
    SegmentStartUnique(q, |dir|);
    assert q[|dir|..] == name;
    assert q[..|dir|] == dir;
  }

  /** Appending `.ext` (with no dot in `ext`) makes that dot the last one. */
  lemma {:induction false} LastDotOfAppended(stem: string, ext: string)
    requires forall j :: 0 <= j < |ext| ==> ext[j] != '.'
    ensures LastDot(stem + "." + ext) == Some(|stem|)
    decreases |ext|
  {
    var n := stem + "." + ext;
    if ext != [] {
      assert n[..|n| - 1] == stem + "." + ext[..|ext| - 1];
      LastDotOfAppended(stem, ext[..|ext| - 1]);
    }
  }

  /** A stem is never empty and never holds a separator. */
  lemma NameStemShape(name: string)
    requires name != "" && forall j :: 0 <= j < |name| ==> name[j] != '/'
    ensures NameStem(name) != "" && NameStem(name) <= name
    ensures forall j :: 0 <= j < |NameStem(name)| ==> NameStem(name)[j] != '/'
  {
  }

  /** `stem.ext` is a file name whose stem is `stem` and whose extension is `ext`. */
  lemma DottedName(stem: string, ext: string)
    requires stem != "" && forall j :: 0 <= j < |stem| ==> stem[j] != '/'
    requires ext != "" && forall j :: 0 <= j < |ext| ==> ext[j] != '/' && ext[j] != '.'
    ensures var name := stem + "." + ext;
      && name != "." && name != ".."
      && (forall j :: 0 <= j < |name| ==> name[j] != '/')
      && NameStem(name) == stem && NameExtension(name) == Some(ext)
  {
    var name := stem + "." + ext;
    forall j | 0 <= j < |name| ensures name[j] != '/' {
      if j > |stem| { assert name[j] == ext[j - |stem| - 1]; }
    }
    assert name[|name| - 1] == ext[|ext| - 1];
    LastDotOfAppended(stem, ext);
    assert name[..|stem|] == stem;
    assert name[|stem| + 1..] == ext;
  }

  /** A path ending in `stem.ext`, in any directory, has extension `ext`. */
  lemma DottedPathExtension(dir: string, stem: string, ext: string)
    requires dir == "" || dir[|dir| - 1] == '/'
    requires stem != "" && forall j :: 0 <= j < |stem| ==> stem[j] != '/'
    requires ext != "" && forall j :: 0 <= j < |ext| ==> ext[j] != '/' && ext[j] != '.'
    ensures Extension(dir + stem + "." + ext) == Some(ext)
  {
    var name := stem + "." + ext;
    var p := dir + stem + "." + ext;
    assert p == dir + name;
    DottedName(stem, ext);
    SplitAfterDir(dir, name);
    ExtensionOfSplit(p, dir, name);
  }

  lemma ExtensionOfSplit(p: string, dir: string, name: string)
    requires SplitFileName(p) == Some((dir, name))
    ensures FileStem(p) == Some(NameStem(name))
    ensures Extension(p) == NameExtension(name)
  {
  }

  /** The archive path derived from a file path by `with_extension(ext)` keeps
      the file's stem and carries exactly the extension `ext`. */
  lemma WithExtensionKeepsStem(p: string, ext: string)
    requires FileName(p).Some?
    requires ext != "" && forall j :: 0 <= j < |ext| ==> ext[j] != '/' && ext[j] != '.'
    ensures FileStem(WithExtension(p, ext)) == FileStem(p)
    ensures Extension(WithExtension(p, ext)) == Some(ext)
  {
    var split := SplitFileName(p).value;
    var dir, name := split.0, split.1;
    var stem := NameStem(name);
    var newName := stem + "." + ext;
    WithExtensionOfSplit(p, dir, name, ext);
    ExtensionOfSplit(p, dir, name);
    NameStemShape(name);
    DottedName(stem, ext);
    SplitAfterDir(dir, newName);
    ExtensionOfSplit(dir + newName, dir, newName);
  }

  lemma WithExtensionOfSplit(p: string, dir: string, name: string, ext: string)
    requires SplitFileName(p) == Some((dir, name)) && ext != ""
    ensures WithExtension(p, ext) == dir + (NameStem(name) + "." + ext)
  {
  }

  /** ASCII lower-casing. */
  function ToLower(s: string): (r: string)
    ensures |r| == |s|
    ensures forall i :: 0 <= i < |s| ==>
      r[i] == if 'A' <= s[i] <= 'Z' then (s[i] as int + 32) as char else s[i]
  {
    if s == [] then []
    else [if 'A' <= s[0] <= 'Z' then (s[0] as int + 32) as char else s[0]] + ToLower(s[1..])
  }
}
