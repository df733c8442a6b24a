/**
  Normalisation of a path. The text is cut into parts, each running up to and including the next
  separator, the last one being whatever follows the final separator (possibly nothing). The
  parts are then scanned left to right: "." and "./" are dropped, ".." and "../" drop the part
  kept last (the leading "/" included) or vanish when nothing is kept, a lone "/" that is not the
  first part (an empty segment) is dropped, and every other part is kept. The result is the kept
  parts in order, or the path itself when no part was dropped.
*/
module UnixPathNormalize {
  import opened UnixPaths

  // ---------------------------------------------------------------------------
  // Parts of a path
  // ---------------------------------------------------------------------------

  /** The parts the scan visits, in order. */
  function Parts(s: string): (ps: seq<string>)
    ensures |ps| > 0
    decreases |s|
  {
    var i := IndexOf(s, SEPARATOR, 0);
    if i == -1 then [s] else [s[..i + 1]] + Parts(s[i + 1..])
  }

  /** Concatenation of parts, in order. */
  function Concat(ps: seq<string>): (s: string)
  {
    if ps == [] then "" else Concat(ps[..|ps| - 1]) + ps[|ps| - 1]
  }

  /** A part that a separator ends and that holds no other separator. */
  predicate Closed(part: string)
  {
    part != "" && part[|part| - 1] == SEPARATOR && SEPARATOR !in part[..|part| - 1]
  }

  predicate AllClosed(ps: seq<string>)
  {
    forall i :: 0 <= i < |ps| ==> Closed(ps[i])
  }

  /** "." or "./", tested character by character. */
  predicate IsCurrentDir(part: string)
  {
    (|part| == 1 || (|part| == 2 && part[1] == SEPARATOR)) && part[0] == '.'
  }

  /** ".." or "../", tested character by character. */
  predicate IsParentDir(part: string)
  {
    (|part| == 2 || (|part| == 3 && part[2] == SEPARATOR)) && part[0] == '.' && part[1] == '.'
  }

  /** A lone separator, tested character by character. */
  predicate IsLoneSeparator(part: string)
  {
    |part| == 1 && part[0] == SEPARATOR
  }

  /** The character tests are the comparisons with the constants that the switch makes. */
  lemma PartTests(part: string)
    ensures IsCurrentDir(part) <==> part == CURRENT_DIR || part == CURRENT_DIR + ROOT
    ensures IsParentDir(part) <==> part == PARENT_DIR || part == PARENT_DIR + ROOT
    ensures IsLoneSeparator(part) <==> part == ROOT
  {
  }

  /** A part the scan does not keep as it is; `first` tells whether it starts the path. */
  predicate Mutating(part: string, first: bool)
  {
    IsCurrentDir(part) || IsParentDir(part) || (IsLoneSeparator(part) && !first)
  }

  /** No part of `ps` is dropped by the scan; `first` tells whether `ps` starts the path. */
  predicate Quiet(ps: seq<string>, first: bool)
  {
    forall i :: 0 <= i < |ps| ==> !Mutating(ps[i], first && i == 0)
  }

  /** A path with no ".", ".." or empty segment. */
  predicate IsNormal(s: string)
  {
    Quiet(Parts(s), true)
  }

  // ---------------------------------------------------------------------------
  // The scan
  // ---------------------------------------------------------------------------

  /** The scan's state: the parts kept so far and whether anything was dropped. */
  datatype Scan = Scan(parts: seq<string>, mutated: bool)

  function Step(sc: Scan, part: string, first: bool): (next: Scan)
  {
    if IsCurrentDir(part) then
      Scan(sc.parts, true)
    else if IsParentDir(part) then
      Scan(if sc.parts == [] then [] else sc.parts[..|sc.parts| - 1], true)
    else if IsLoneSeparator(part) && !first then
      Scan(sc.parts, true)
    else
      Scan(sc.parts + [part], sc.mutated)
  }

  function Run(sc: Scan, ps: seq<string>, first: bool): (last: Scan)
    decreases |ps|
  {
    if ps == [] then sc else Run(Step(sc, ps[0], first), ps[1..], false)
  }

  /** The scan of what follows `mark`, continuing from `sc`. */
  function Remaining(path: string, mark: nat, sc: Scan): (last: Scan)
    requires mark <= |path|
  {
    Run(sc, Parts(path[mark..]), mark == 0)
  }

  /** What normalising `p` yields. */
  function Normalized(p: UnixPath): (r: UnixPath)
  {
    var sc := Run(Scan([], false), Parts(p.path), true);
    if sc.mutated then UnixPath(Concat(sc.parts)) else p
  }

  // ---------------------------------------------------------------------------
  // The loop of UnixPath.normalize
  // ---------------------------------------------------------------------------

  /** UnixPath.normalize: the scan as a loop over positions in the text, then the kept
      parts glued together, or the path itself when the scan dropped nothing. */
  method Normalize(p: UnixPath) returns (r: UnixPath)
    ensures r == Normalized(p)
  {
    var path := p.path;
    var mark := 0;
    var mutated := false;
    var index := 0;
    var resultSize := 0;
    var parts: seq<string> := [];
    ghost var target := Run(Scan([], false), Parts(path), true);
    assert path[0..] == path;
    // UnixPath.normalize's do-while loop: it ends after the pass that finds no further separator.
    while true
      invariant 0 <= mark <= |path|
      invariant resultSize == |Concat(parts)|
      invariant Remaining(path, mark, Scan(parts, mutated)) == target
      decreases |path| - mark
    {
      index, parts, mutated, resultSize := Pass(path, mark, parts, mutated, resultSize);
      if index == -1 {
        break;
      }
      mark := index + 1;
    }
    if !mutated {
      return p;
    }
    var result := Join(parts, resultSize);
    r := UnixPath(result);
  }

  /** The builder: the kept parts glued together in order, in a builder sized for them. */
  method Join(parts: seq<string>, resultSize: int) returns (result: string)
    requires resultSize == |Concat(parts)|
    ensures result == Concat(parts) && |result| == resultSize
  {
    result := "";
    for i := 0 to |parts|
      invariant result == Concat(parts[..i])
    {
      assert parts[..i + 1][..i] == parts[..i];
      result := result + parts[i];
    }
    assert parts[..|parts|] == parts;
  }

  /** One pass of the loop: the part from `mark` up to and including the next separator (or to
      the end) is cut off and scanned. */
  method Pass(path: string, mark: nat, parts: seq<string>, mutated: bool, resultSize: int)
    returns (index: int, parts': seq<string>, mutated': bool, resultSize': int)
    requires mark <= |path| && resultSize == |Concat(parts)|
    ensures index == -1 || mark <= index < |path|
    ensures resultSize' == |Concat(parts')|
    ensures Remaining(path, mark, Scan(parts, mutated)) ==
            if index == -1 then Scan(parts', mutated') else Remaining(path, index + 1, Scan(parts', mutated'))
  {
    index := IndexOf(path, SEPARATOR, mark);
    var part := path[mark..if index == -1 then |path| else index + 1];
    LoneSeparator(path, mark);
    ScanNext(path, mark, Scan(parts, mutated));
    parts', mutated', resultSize' := ScanPart(parts, mutated, resultSize, part, index, mark);
  }

  /** The body of the loop: the switch on the part just cut off. */
  method ScanPart(parts: seq<string>, mutated: bool, resultSize: int, part: string, index: int, mark: nat)
    returns (parts': seq<string>, mutated': bool, resultSize': int)
    requires resultSize == |Concat(parts)|
    requires part == ROOT <==> index != -1 && index == mark
    ensures Scan(parts', mutated') == Step(Scan(parts, mutated), part, mark == 0)
    ensures resultSize' == |Concat(parts')|
  {
    PartTests(part);
    parts', mutated', resultSize' := parts, mutated, resultSize;
    if part == CURRENT_DIR || part == CURRENT_DIR + ROOT {
      mutated' := true;
    } else if part == PARENT_DIR || part == PARENT_DIR + ROOT {
      mutated' := true;
      if parts' != [] {
        resultSize' := resultSize' - |parts'[|parts'| - 1]|;
        parts' := parts'[..|parts'| - 1];
      }
    } else if index != mark || index == 0 {
      assert (parts' + [part])[..|parts'|] == parts';
      parts' := parts' + [part];
      resultSize' := resultSize' + |part|;
    } else {
      mutated' := true;
    }
  }

  // ---------------------------------------------------------------------------
  // Lemmas
  // ---------------------------------------------------------------------------

  /** The part cut off at `mark` is a lone separator exactly when the separator sits at `mark`. */
  lemma LoneSeparator(path: string, mark: nat)
    requires mark <= |path|
    ensures var index := IndexOf(path, SEPARATOR, mark);
            var part := path[mark..if index == -1 then |path| else index + 1];
            part == ROOT <==> index != -1 && index == mark
  {
    var index := IndexOf(path, SEPARATOR, mark);
    if index > mark {
      assert |path[mark..index + 1]| > 1;
    }
  }

  /** The part cut off at `mark` is the first part of what remains of the path. */
  lemma NextPart(path: string, mark: nat)
    requires mark <= |path|
    ensures var index := IndexOf(path, SEPARATOR, mark);
            var part := path[mark..if index == -1 then |path| else index + 1];
            Parts(path[mark..]) == [part] + (if index == -1 then [] else Parts(path[index + 1..]))
  {
    var index := IndexOf(path, SEPARATOR, mark);
    var part := path[mark..if index == -1 then |path| else index + 1];
    IndexOfFrom(path, SEPARATOR, mark);
    if index != -1 {
      assert path[mark..][..index - mark + 1] == part;
      assert path[mark..][index - mark + 1..] == path[index + 1..];
    } else {
      assert path[mark..] == part;
    }
  }

  /** One pass of the loop: scanning what follows `mark` is scanning the part cut off there and
      then, unless it was the last, the parts after it. */
  lemma ScanNext(path: string, mark: nat, sc: Scan)
    requires mark <= |path|
    ensures var index := IndexOf(path, SEPARATOR, mark);
            var part := path[mark..if index == -1 then |path| else index + 1];
            var next := Step(sc, part, mark == 0);
            Run(sc, Parts(path[mark..]), mark == 0) ==
              if index == -1 then next else Run(next, Parts(path[index + 1..]), false)
  {
    var index := IndexOf(path, SEPARATOR, mark);
    var part := path[mark..if index == -1 then |path| else index + 1];
    var rest := if index == -1 then [] else Parts(path[index + 1..]);
    NextPart(path, mark);
    RunFirst(sc, part, rest, mark == 0);
  }

  lemma RunFirst(sc: Scan, part: string, rest: seq<string>, first: bool)
    ensures Run(sc, [part] + rest, first) == Run(Step(sc, part, first), rest, false)
  {
    assert ([part] + rest)[1..] == rest;
  }

  /** Searching from `from` is searching the suffix that starts there. */
  lemma IndexOfFrom(s: string, c: char, from: nat)
    requires from <= |s|
    ensures IndexOf(s, c, from) ==
            (var k := IndexOf(s[from..], c, 0); if k == -1 then -1 else from + k)
  {
    var k := IndexOf(s[from..], c, 0);
    if k != -1 {
      assert s[from + k] == c;
    }
  }

  lemma {:induction false} ConcatCons(part: string, ps: seq<string>)
    ensures Concat([part] + ps) == part + Concat(ps)
    decreases |ps|
  {
    if ps != [] {
      var front := ps[..|ps| - 1];
      assert ([part] + ps)[..|ps|] == [part] + front;
      ConcatCons(part, front);
    }
  }

  /** Cutting a text into parts and gluing them back gives the text. */
  lemma {:induction false} PartsConcat(s: string)
    ensures Concat(Parts(s)) == s
    decreases |s|
  {
    var i := IndexOf(s, SEPARATOR, 0);
    if i == -1 {
      assert Concat([s]) == Concat([]) + s;
    } else {
      PartsConcat(s[i + 1..]);
      ConcatCons(s[..i + 1], Parts(s[i + 1..]));
      assert s[..i + 1] + s[i + 1..] == s;
    }
  }

  /** Every part but the last is closed by a separator; the last holds none. */
  lemma {:induction false} PartsShape(s: string)
    ensures AllClosed(Parts(s)[..|Parts(s)| - 1])
    ensures SEPARATOR !in Parts(s)[|Parts(s)| - 1]
    decreases |s|
  {
    var i := IndexOf(s, SEPARATOR, 0);
    if i != -1 {
      PartsShape(s[i + 1..]);
      var head := s[..i + 1];
      assert head[..i] == s[..i];
      assert Closed(head);
    }
  }

  /** Closed parts followed by a text without separators cut back into the same parts. */
  lemma {:induction false} PartsOfClosed(ps: seq<string>, last: string)
    requires AllClosed(ps)
    requires SEPARATOR !in last
    ensures Parts(Concat(ps) + last) == ps + [last]
    decreases |ps|
  {
    if ps == [] {
      assert Concat(ps) + last == last;
      assert Parts(last) == [last];
    } else {
      var head, rest := ps[0], ps[1..];
      assert AllClosed(rest) by {
        forall i | 0 <= i < |rest| ensures Closed(rest[i]) {
          assert rest[i] == ps[i + 1];
        }
      }
      PartsOfClosed(rest, last);
      assert [head] + rest == ps;
      ConcatCons(head, rest);
      var tail := Concat(rest) + last;
      assert Concat(ps) + last == head + tail;
      PartsCons(head, tail);
      assert [head] + (rest + [last]) == ps + [last];
    }
  }

  /** The scan drops something exactly when some part is mutating; if it drops nothing it keeps
      every part. */
  lemma {:induction false} RunMutated(sc: Scan, ps: seq<string>, first: bool)
    ensures Run(sc, ps, first).mutated == (sc.mutated || !Quiet(ps, first))
    ensures !Run(sc, ps, first).mutated ==> Run(sc, ps, first).parts == sc.parts + ps
    decreases |ps|
  {
    if ps != [] {
      var next := Step(sc, ps[0], first);
      RunMutated(next, ps[1..], false);
      assert Quiet(ps, first) <==> !Mutating(ps[0], first) && Quiet(ps[1..], false) by {
        if !Mutating(ps[0], first) && Quiet(ps[1..], false) {
          forall i | 0 < i < |ps| ensures !Mutating(ps[i], first && i == 0) {
            assert ps[i] == ps[1..][i - 1];
          }
        }
        if Quiet(ps, first) {
          forall i | 0 <= i < |ps| - 1 ensures !Mutating(ps[1..][i], false) {
            assert ps[1..][i] == ps[i + 1];
          }
        }
      }
      assert sc.parts + [ps[0]] + ps[1..] == sc.parts + ps;
    }
  }

  /** The scan never lengthens the text, and shortens it whenever it drops something. */
  lemma {:induction false} RunLength(sc: Scan, ps: seq<string>, first: bool)
    ensures |Concat(Run(sc, ps, first).parts)| <= |Concat(sc.parts)| + |Concat(ps)|
    ensures Run(sc, ps, first).mutated && !sc.mutated ==>
            |Concat(Run(sc, ps, first).parts)| < |Concat(sc.parts)| + |Concat(ps)|
    decreases |ps|
  {
    if ps != [] {
      var part := ps[0];
      var next := Step(sc, part, first);
      RunLength(next, ps[1..], false);
      assert ps == [part] + ps[1..];
      ConcatCons(part, ps[1..]);
      if sc.parts != [] {
        assert Concat(sc.parts) == Concat(sc.parts[..|sc.parts| - 1]) + sc.parts[|sc.parts| - 1];
      }
      assert |Concat(next.parts)| + (if next.mutated && !sc.mutated then 1 else 0)
             <= |Concat(sc.parts)| + |part|;
    }
  }

  /** What the scan keeps: no mutating part, and closed parts save possibly a last one with no
      separator. */
  lemma {:induction false} RunShape(sc: Scan, ps: seq<string>, first: bool)
    requires AllClosed(sc.parts) && Quiet(sc.parts, true)
    requires first ==> sc.parts == []
    requires ps != [] && AllClosed(ps[..|ps| - 1]) && SEPARATOR !in ps[|ps| - 1]
    ensures var kept := Run(sc, ps, first).parts;
            Quiet(kept, true) &&
            (AllClosed(kept) ||
             (kept != [] && AllClosed(kept[..|kept| - 1]) && SEPARATOR !in kept[|kept| - 1]))
    decreases |ps|
  {
    var part := ps[0];
    var next := Step(sc, part, first);
    assert Quiet(next.parts, true) by {
      if next.parts == sc.parts + [part] {
        assert !Mutating(part, sc.parts == []);
      }
    }
    if |ps| == 1 {
      assert Run(sc, ps, first) == next;
      if next.parts == sc.parts + [part] {
        assert next.parts[..|next.parts| - 1] == sc.parts;
      }
    } else {
      assert Closed(ps[..|ps| - 1][0]);
      var front, rest := ps[..|ps| - 1], ps[1..][..|ps| - 2];
      assert AllClosed(rest) by {
        forall i | 0 <= i < |rest| ensures Closed(rest[i]) {
          assert rest[i] == front[i + 1];
        }
      }
      RunShape(next, ps[1..], false);
    }
  }

  // ---------------------------------------------------------------------------
  // What normalisation promises
  // ---------------------------------------------------------------------------

  /** Normalisation returns the path itself exactly when it has no ".", ".." or empty segment. */
  lemma NormalizedIdentity(p: UnixPath)
    ensures Normalized(p) == p <==> IsNormal(p.path)
  {
    var sc := Run(Scan([], false), Parts(p.path), true);
    RunMutated(Scan([], false), Parts(p.path), true);
    RunLength(Scan([], false), Parts(p.path), true);
    PartsConcat(p.path);
    assert Concat([]) == "";
  }

  /** Normalisation never lengthens a path. */
  lemma NormalizedNotLonger(p: UnixPath)
    ensures |Normalized(p).path| <= |p.path|
  {
    RunLength(Scan([], false), Parts(p.path), true);
    PartsConcat(p.path);
    assert Concat([]) == "";
  }

  /** The result of normalisation has no ".", ".." or empty segment. */
  lemma NormalizedIsNormal(p: UnixPath)
    ensures IsNormal(Normalized(p).path)
  {
    var ps := Parts(p.path);
    var sc := Run(Scan([], false), ps, true);
    RunMutated(Scan([], false), ps, true);
    if sc.mutated {
      PartsShape(p.path);
      RunShape(Scan([], false), ps, true);
      var kept := sc.parts;
      if AllClosed(kept) {
        PartsOfClosed(kept, "");
        assert Concat(kept) + "" == Concat(kept);
        assert Quiet(kept + [""], true);
      } else {
        var front := kept[..|kept| - 1];
        PartsOfClosed(front, kept[|kept| - 1]);
        assert front + [kept[|kept| - 1]] == kept;
      }
    }
  }

  /** Normalising twice is normalising once. */
  lemma NormalizedIdempotent(p: UnixPath)
    ensures Normalized(Normalized(p)) == Normalized(p)
  {
    NormalizedIsNormal(p);
    NormalizedIdentity(Normalized(p));
  }

  // ---------------------------------------------------------------------------
  // Examples
  // ---------------------------------------------------------------------------

  /** A plain name: non-empty, with no separator, and neither "." nor "..". */
  predicate Name(n: string)
  {
    n != "" && SEPARATOR !in n && n != CURRENT_DIR && n != PARENT_DIR
  }

  /** A name followed by a separator is a closed part that the scan keeps. */
  lemma NamePart(n: string)
    requires Name(n)
    ensures Closed(n + ROOT) && !Mutating(n + ROOT, true) && !Mutating(n + ROOT, false)
  {
    assert (n + ROOT)[..|n|] == n;
  }

  /** A "." between two names is dropped. */
  lemma NormalizeDropsCurrentDir(a: string, b: string)
    requires Name(a) && Name(b)
    ensures Normalized(UnixPath(a + "/./" + b)) == UnixPath(a + "/" + b)
  {
    var head := a + ROOT;
    NamePart(a);
    assert Parts(a + "/./" + b) == [head, "./", b] by {
      ThreeParts(head, "./", b);
      assert head + "./" + b == a + "/./" + b;
    }
    RunDropsMiddle(head, "./", b);
    ConcatTwo(head, b);
  }

  /** An empty segment between two names is dropped. */
  lemma NormalizeDropsEmptySegment(a: string, b: string)
    requires Name(a) && Name(b)
    ensures Normalized(UnixPath(a + "//" + b)) == UnixPath(a + "/" + b)
  {
    var head := a + ROOT;
    NamePart(a);
    assert Parts(a + "//" + b) == [head, ROOT, b] by {
      ThreeParts(head, ROOT, b);
      assert head + ROOT + b == a + "//" + b;
    }
    RunDropsMiddle(head, ROOT, b);
    ConcatTwo(head, b);
  }

  /** Three parts whose middle one is dropped without touching what was kept before it. */
  lemma RunDropsMiddle(head: string, mid: string, b: string)
    requires !Mutating(head, true) && !Mutating(b, false)
    requires mid == CURRENT_DIR + ROOT || mid == ROOT
    ensures Run(Scan([], false), [head, mid, b], true) == Scan([head, b], true)
  {
    var s1 := Step(Scan([], false), head, true);
    assert s1 == Scan([head], false);
    var s2 := Step(s1, mid, false);
    assert s2 == Scan([head], true);
    assert Step(s2, b, false) == Scan([head, b], true) by {
      assert [head] + [b] == [head, b];
    }
    RunOne(s2, b, false);
    RunFirst(s1, mid, [b], false);
    assert [mid] + [b] == [mid, b];
    RunFirst(Scan([], false), head, [mid, b], true);
    assert [head] + [mid, b] == [head, mid, b];
  }

  lemma RunOne(sc: Scan, part: string, first: bool)
    ensures Run(sc, [part], first) == Step(sc, part, first)
  {
    assert [part][1..] == [];
  }

  lemma ConcatTwo(x: string, y: string)
    ensures Concat([x, y]) == x + y
  {
    assert [x, y][..1] == [x];
    assert Concat([x, y]) == Concat([x]) + y;
    assert Concat([x]) == Concat([]) + x;
  }

  /** A ".." cancels the name before it. */
  lemma NormalizeParentCancelsName(a: string, b: string)
    requires Name(a) && Name(b)
    ensures Normalized(UnixPath(a + "/../" + b)) == UnixPath(b)
  {
    var head := a + ROOT;
    NamePart(a);
    assert Parts(a + "/../" + b) == [head, "../", b] by {
      ThreeParts(head, "../", b);
      assert head + "../" + b == a + "/../" + b;
    }
    RunCancels(head, b);
    assert Concat([b]) == Concat([]) + b;
  }

  /** Three parts whose middle ".." drops the first. */
  lemma RunCancels(head: string, b: string)
    requires !Mutating(head, true) && !Mutating(b, false)
    ensures Run(Scan([], false), [head, "../", b], true) == Scan([b], true)
  {
    var s1 := Step(Scan([], false), head, true);
    assert s1 == Scan([head], false);
    var s2 := Step(s1, "../", false);
    assert s2 == Scan([], true);
    assert Step(s2, b, false) == Scan([b], true);
    RunOne(s2, b, false);
    RunFirst(s1, "../", [b], false);
    assert ["../"] + [b] == ["../", b];
    RunFirst(Scan([], false), head, ["../", b], true);
    assert [head] + ["../", b] == [head, "../", b];
  }

  /** A leading ".." has nothing to cancel and simply vanishes. */
  lemma NormalizeLeadingParentVanishes(a: string)
    requires Name(a)
    ensures Normalized(UnixPath("../" + a)) == UnixPath(a)
  {
    PartsCons("../", a);
    assert Run(Scan([], true), [a], false) == Scan([a], true);
    RunFirst(Scan([], false), "../", [a], true);
    assert Concat([a]) == Concat([]) + a;
  }

  /** A ".." after the root drops the root itself, leaving the empty path. */
  lemma NormalizeParentOfRootExample()
    ensures Normalized(UnixPath("/..")) == EmptyPath
  {
    PartsCons("/", "..");
    assert "/" + ".." == "/..";
    assert Run(Scan(["/"], false), [".."], false) == Scan([], true);
    RunFirst(Scan([], false), "/", [".."], true);
  }

  /** A closed part in front of a text is its first part. */
  lemma PartsCons(head: string, rest: string)
    requires Closed(head)
    ensures Parts(head + rest) == [head] + Parts(rest)
  {
    var s := head + rest;
    assert s[|head| - 1] == SEPARATOR;
    assert forall k :: 0 <= k < |head| - 1 ==> s[k] == head[..|head| - 1][k] != SEPARATOR;
    assert IndexOf(s, SEPARATOR, 0) == |head| - 1;
    assert s[..|head|] == head;
    assert s[|head|..] == rest;
  }

  /** A text cut at its two separators. */
  lemma ThreeParts(first: string, second: string, last: string)
    requires Closed(first) && Closed(second) && SEPARATOR !in last
    ensures Parts(first + second + last) == [first, second, last]
  {
    PartsCons(second, last);
    PartsCons(first, second + last);
    assert first + second + last == first + (second + last);
    assert Parts(last) == [last];
  }
}
