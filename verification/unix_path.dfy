/**
  A POSIX-style path kept as its plain text. The path is an immutable value: every operation
  returns a new path (or the same one), and two paths are the same exactly when their texts are.
  The shared EMPTY_PATH and ROOT_PATH instances of UnixPath become the values EmptyPath and
  RootPath, so "returns the canonical instance" and "returns an equal path" coincide here.
*/
module UnixPaths {
  import opened Wrappers

  const SEPARATOR: char := '/'
  const ROOT: string := [SEPARATOR]
  const CURRENT_DIR: string := "."
  const PARENT_DIR: string := ".."

  datatype UnixPath = UnixPath(path: string)

  const RootPath: UnixPath := UnixPath(ROOT)
  const EmptyPath: UnixPath := UnixPath("")

  // ---------------------------------------------------------------------------
  // The two searches of java.lang.String that the path code relies on
  // ---------------------------------------------------------------------------

  /** `s.indexOf(c, from)`: the first position at or after `from` that holds `c`, or -1. */
  function IndexOf(s: string, c: char, from: nat): (r: int)
    ensures r == -1 || from <= r < |s|
    ensures r == -1 ==> forall k :: from <= k < |s| ==> s[k] != c
    ensures r != -1 ==> s[r] == c && forall k :: from <= k < r ==> s[k] != c
    decreases |s| - from
  {
    if from >= |s| then -1
    else if s[from] == c then from
    else IndexOf(s, c, from + 1)
  }

  /** `s.lastIndexOf(c, from)`: the last position at or before `from` that holds `c`, or -1;
      a `from` past the end searches the whole string, a negative one finds nothing. */
  function LastIndexOf(s: string, c: char, from: int): (r: int)
    ensures -1 <= r < |s| && (r == -1 || r <= from)
    ensures r != -1 ==> s[r] == c
    ensures forall k :: r < k < |s| && k <= from ==> s[k] != c
    decreases if from < 0 then 0 else from + 1
  {
    if from < 0 then -1
    else if from >= |s| then LastIndexOf(s, c, |s| - 1)
    else if s[from] == c then from
    else LastIndexOf(s, c, from - 1)
  }

  // ---------------------------------------------------------------------------
  // Construction and classification
  // ---------------------------------------------------------------------------

  /** Wraps the text verbatim; the empty text and the single separator give the shared paths. */
  function CreatePath(s: string): (p: UnixPath)
    ensures p.path == s
    ensures s == "" ==> p == EmptyPath
    ensures s == ROOT ==> p == RootPath
  {
    if s == "" then EmptyPath
    else if IsRootInternal(s) then RootPath
    else UnixPath(s)
  }

  predicate IsRootInternal(s: string)
    ensures IsRootInternal(s) <==> s == ROOT
  {
    |s| == 1 && s[0] == SEPARATOR
  }

  predicate IsRoot(p: UnixPath)
    ensures IsRoot(p) <==> p == RootPath
  {
    IsRootInternal(p.path)
  }

  /** Absolute paths are exactly those whose text starts with the separator. */
  predicate IsAbsolute(p: UnixPath)
    ensures IsAbsolute(p) <==> ROOT <= p.path
  {
    p.path != "" && p.path[0] == SEPARATOR
  }

  predicate IsEmpty(p: UnixPath)
    ensures IsEmpty(p) <==> p == EmptyPath
  {
    p.path == ""
  }

  /** A path has a trailing separator exactly when its text is some text followed by "/". */
  predicate HasTrailingSeparator(p: UnixPath)
    ensures HasTrailingSeparator(p) <==> exists d :: p.path == d + ROOT
  {
    var ok := HasTrailingSeparatorInternal(p.path);
    assert ok ==> p.path == p.path[..|p.path| - 1] + ROOT;
    ok
  }

  predicate HasTrailingSeparatorInternal(s: string)
  {
    s != "" && s[|s| - 1] == SEPARATOR
  }

  /** Paths are equal exactly when their texts are. */
  predicate Equals(p: UnixPath, other: UnixPath)
    ensures Equals(p, other) <==> p == other
  {
    p.path == other.path
  }

  // ---------------------------------------------------------------------------
  // Resolution
  // ---------------------------------------------------------------------------

  /** `other` appended to `p`: an absolute `other` wins, an empty one leaves `p`, and otherwise
      exactly one separator stands between the two unless `p` already ends with one. */
  function Resolve(p: UnixPath, other: UnixPath): (r: UnixPath)
    ensures IsAbsolute(other) ==> r == other
    ensures !IsAbsolute(other) && other.path == "" ==> r == p
    ensures !IsAbsolute(other) && other.path != "" ==>
      var glue := if HasTrailingSeparator(p) then 0 else 1;
      |r.path| == |p.path| + glue + |other.path| &&
      r.path[..|p.path|] == p.path &&
      r.path[|p.path|..|p.path| + glue] == ROOT[..glue] &&
      r.path[|p.path| + glue..] == other.path
  {
    if IsAbsolute(other) then other
    else if IsEmpty(other) then p
    else if HasTrailingSeparator(p) then UnixPath(p.path + other.path)
    else UnixPath(p.path + ROOT + other.path)
  }

  /** The parent directory, separator included: the prefix of `p` up to its last separator,
      not counting a separator that ends `p`. The empty path, the root and a relative path with
      no such separator have none. */
  function GetParent(p: UnixPath): (r: Option<UnixPath>)
    ensures r.None? <==> p.path == "" || IsRoot(p) || SEPARATOR !in p.path[..|p.path| - 1]
    ensures r.Some? ==>
      var q := r.value.path;
      0 < |q| < |p.path| && q == p.path[..|q|] && q[|q| - 1] == SEPARATOR &&
      SEPARATOR !in p.path[|q|..|p.path| - 1]
    ensures r.Some? ==> IsAbsolute(r.value) == IsAbsolute(p)
  {
    if IsEmpty(p) || IsRoot(p) then None
    else
      var index :=
        if HasTrailingSeparator(p) then LastIndexOf(p.path, SEPARATOR, |p.path| - 2)
        else LastIndexOf(p.path, SEPARATOR, |p.path| - 1);
      if index == -1 then
        // Unreachable for an absolute path: its leading separator is always found.
        if IsAbsolute(p) then Some(RootPath) else None
      else Some(UnixPath(p.path[..index + 1]))
  }

  /** `other` resolved against the parent of `p`, or `other` itself when `p` has no parent. */
  function ResolveSibling(p: UnixPath, other: UnixPath): (r: UnixPath)
    ensures IsAbsolute(other) ==> r == other
    ensures GetParent(p).None? ==> r == other
    ensures GetParent(p).Some? && !IsAbsolute(other) && other.path != "" ==>
      r.path == GetParent(p).value.path + other.path
    ensures GetParent(p).Some? && other.path == "" ==> r == GetParent(p).value
  {
    var parent := GetParent(p);
    if parent.None? then other else Resolve(parent.value, other)
  }

  /** Makes a relative path absolute against a working directory; a working directory that is
      not absolute is refused (None stands for the failed argument check). */
  function ToAbsolutePath(p: UnixPath, currentWorkingDirectory: UnixPath): (r: Option<UnixPath>)
    ensures r.Some? <==> IsAbsolute(currentWorkingDirectory)
    ensures r.Some? ==> IsAbsolute(r.value)
    ensures r.Some? && IsAbsolute(p) ==> r.value == p
    ensures r.Some? && p.path == "" ==> r.value == currentWorkingDirectory
    ensures r.Some? && !IsAbsolute(p) && p.path != "" ==>
      r.value.path == currentWorkingDirectory.path +
        (if HasTrailingSeparator(currentWorkingDirectory) then "" else ROOT) + p.path
  {
    if !IsAbsolute(currentWorkingDirectory) then None
    else if IsAbsolute(p) then Some(p)
    else Some(Resolve(currentWorkingDirectory, p))
  }

  /** The working directory defaults to the root: a relative path just gains a leading separator. */
  function ToAbsolutePathFromRoot(p: UnixPath): (r: UnixPath)
    ensures IsAbsolute(r)
    ensures IsAbsolute(p) ==> r == p
    ensures !IsAbsolute(p) ==> r.path == ROOT + p.path
  {
    ToAbsolutePath(p, RootPath).value
  }

  // ---------------------------------------------------------------------------
  // Operations UnixPath leaves as stubs
  // ---------------------------------------------------------------------------

  /** Stub: answers `other` whatever `p` is. */
  function Relativize(p: UnixPath, other: UnixPath): (r: UnixPath)
    ensures r == other
  {
    other
  }

  /** Stub: never reports a prefix, not even `p` itself. */
  predicate StartsWith(p: UnixPath, other: UnixPath)
    ensures !StartsWith(p, other)
  {
    false
  }

  /** Stub: never reports a suffix, not even `p` itself. */
  predicate EndsWith(p: UnixPath, other: UnixPath)
    ensures !EndsWith(p, other)
  {
    false
  }

  /** Stub: the whole path stands for its file name. */
  function GetFileName(p: UnixPath): (r: UnixPath)
    ensures r == p
  {
    p
  }

  // ---------------------------------------------------------------------------
  // Lemmas relating the operations
  // ---------------------------------------------------------------------------

  /** Resolving a single name (with or without a trailing separator) and then asking for the
      parent gives back the directory it was resolved against, separator included. */
  lemma ParentOfResolve(p: UnixPath, name: UnixPath)
    requires !IsAbsolute(name) && name.path != ""
    requires SEPARATOR !in name.path[..|name.path| - 1]
    ensures GetParent(Resolve(p, name)) ==
            Some(if HasTrailingSeparator(p) then p else UnixPath(p.path + ROOT))
  {
    var dir := if HasTrailingSeparator(p) then p.path else p.path + ROOT;
    var s := Resolve(p, name).path;
    assert s == dir + name.path;
    assert s[..|dir|] == dir;
    assert s[|dir|..|s| - 1] == name.path[..|name.path| - 1];
    assert s[|dir| - 1] == SEPARATOR;
    assert SEPARATOR in s[..|s| - 1] by {
      assert s[..|s| - 1][|dir| - 1] == SEPARATOR;
    }
    assert !IsRoot(Resolve(p, name)) by {
      assert |s| >= 2;
    }
    var r := GetParent(Resolve(p, name));
    assert r.value.path == dir;
  }

  /** A sibling resolved from a single name shares the parent of the path it came from. */
  lemma SiblingSharesParent(p: UnixPath, name: UnixPath)
    requires GetParent(p).Some?
    requires !IsAbsolute(name) && name.path != ""
    requires SEPARATOR !in name.path[..|name.path| - 1]
    ensures GetParent(ResolveSibling(p, name)) == GetParent(p)
  {
    ParentOfResolve(GetParent(p).value, name);
  }

  /** The parent of a non-root absolute path always exists and is itself absolute. */
  lemma AbsoluteHasParent(p: UnixPath)
    requires IsAbsolute(p) && !IsRoot(p)
    ensures GetParent(p).Some? && IsAbsolute(GetParent(p).value)
  {
    assert p.path[..|p.path| - 1][0] == SEPARATOR;
  }

  /** Quirk of Resolve: a relative name resolved against the empty path becomes absolute. */
  lemma ResolveAgainstEmpty(name: UnixPath)
    requires !IsAbsolute(name) && name.path != ""
    ensures Resolve(EmptyPath, name).path == ROOT + name.path
  {
  }
}
