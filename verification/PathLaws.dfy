/** What the agent's path conversion means: relative paths lead back to where they came from, and
    one file has one path however it is spelled (`_relative_path` of agent/security.py). */
module PathLaws {
  import opened PyText
  import opened Findings

  // ---------------------------------------------------------------- splitting and joining

  lemma SplitOne(c: char, s: string, separators: string)
    ensures var rest := Split(s, separators);
            Split([c] + s, separators) == if c in separators then [""] + rest else [[c] + rest[0]] + rest[1..]
  {
    assert ([c] + s)[1..] == s;
  }

  lemma {:induction false} SplitAtSlash(a: string, b: string, separators: string)
    requires '/' in separators
    ensures Split(a + "/" + b, separators) == Split(a, separators) + Split(b, separators)
  {
    hide Split;
    if a == "" {
      SplitEmpty(separators);
      SplitOne('/', b, separators);
      assert a + "/" + b == ['/'] + b;
    } else {
      var c, a' := a[0], a[1..];
      SplitAtSlash(a', b, separators);
      SplitOne(c, a' + "/" + b, separators);
      SplitOne(c, a', separators);
      assert a == [c] + a' && a + "/" + b == [c] + (a' + "/" + b);
      var rest, more := Split(a', separators), Split(b, separators);
      assert (rest + more)[1..] == rest[1..] + more;
    }
  }

  lemma SplitEmpty(separators: string)
    ensures Split("", separators) == [""]
  {
  }

  lemma {:induction false} SplitNone(a: string)
    requires Without(a, '/')
    ensures Split(a, "/") == [a]
  {
    if a != "" {
      SplitNone(a[1..]);
      assert a == [a[0]] + a[1..];
    }
  }

  lemma {:induction false} SplitUndoesJoin(parts: seq<string>)
    requires parts != [] && AllWithout(parts, '/')
    ensures Split(Join(parts, "/"), "/") == parts
  {
    SplitNone(parts[0]);
    if |parts| > 1 {
      SplitUndoesJoin(parts[1..]);
      SplitAtSlash(parts[0], Join(parts[1..], "/"), "/");
      assert parts == [parts[0]] + parts[1..];
    }
  }

  // ---------------------------------------------------------------- normal paths

  /** A component that names something below where it stands. */
  predicate Names(part: string) { part != "" && part != "." && part != ".." }

  predicate AllName(parts: seq<string>) { forall i | 0 <= i < |parts| :: Names(parts[i]) }

  lemma {:induction false} NormalNames(parts: seq<string>)
    ensures AllName(Normal(parts))
  {
    if parts != [] { NormalNames(parts[..|parts| - 1]); }
  }

  lemma NormalStep(parts: seq<string>, last: string)
    requires Names(last)
    ensures Normal(parts + [last]) == Normal(parts) + [last]
  {
    assert (parts + [last])[..|parts|] == parts;
  }

  lemma {:induction false} NormalGoesDown(above: seq<string>, parts: seq<string>)
    requires AllName(parts)
    ensures Normal(above + parts) == Normal(above) + parts
  {
    if parts == [] {
      assert above + parts == above;
    } else {
      var n := |parts| - 1;
      NormalGoesDown(above, parts[..n]);
      NormalStep(above + parts[..n], parts[n]);
      hide Normal;
      assert above + parts == above + parts[..n] + [parts[n]];
    }
  }

  function Ups(n: nat): (r: seq<string>)
    ensures |r| == n && forall i | 0 <= i < n :: r[i] == ".."
  {
    seq(n, _ => "..")
  }

  lemma {:induction false} NormalGoesUp(above: seq<string>, n: nat)
    requires n <= |Normal(above)|
    ensures Normal(above + Ups(n)) == Normal(above)[..|Normal(above)| - n]
  {
    if n == 0 {
      assert above + Ups(n) == above;
    } else {
      NormalGoesUp(above, n - 1);
      assert (above + Ups(n))[..|above + Ups(n)| - 1] == above + Ups(n - 1);
    }
  }

  // ---------------------------------------------------------------- relative paths

  lemma RelPathParts(path: string, start: string)
    ensures var p, s := Normal(Split(path, "/")), Normal(Split(start, "/"));
            var i := CommonPrefix(p, s);
            var parts := Ups(|s| - i) + p[i..];
            RelPath(path, start) == if parts == [] then "." else Join(parts, "/")
  {
    hide Normal, Split, Join, CommonPrefix;
    var p, s := Normal(Split(path, "/")), Normal(Split(start, "/"));
    var i := CommonPrefix(p, s);
    assert Ups(|s| - i) + p[i..] == seq(|s| - i, k requires 0 <= k < |s| - i => "..") + p[i..];
  }

  /** Up to what two normal paths share, and down from there. */
  lemma UpAndDown(from: seq<string>, p: seq<string>, i: nat)
    requires i <= |p| && i <= |Normal(from)| && p[..i] == Normal(from)[..i] && AllName(p)
    ensures Normal(from + (Ups(|Normal(from)| - i) + p[i..])) == p
  {
    hide Normal, Ups;
    var n := |Normal(from)| - i;
    NormalGoesUp(from, n);
    NormalGoesDown(from + Ups(n), p[i..]);
    hide AllName;
    assert from + (Ups(n) + p[i..]) == from + Ups(n) + p[i..];
  }

  lemma PartsOfJoin(parts: seq<string>)
    requires AllWithout(parts, '/')
    ensures parts != [] ==> Split(Join(parts, "/"), "/") == parts
    ensures Split(".", "/") == ["."]
  {
    SplitNone(".");
    if parts != [] { SplitUndoesJoin(parts); }
  }

  lemma DotStaysPut(from: seq<string>)
    ensures Normal(from + ["."]) == Normal(from + []) == Normal(from)
  {
    assert (from + ["."])[..|from|] == from && from + [] == from;
  }

  /** Followed from the start, a relative path arrives where the path itself leads. */
  lemma RelPathLeadsBack(path: string, start: string)
    ensures Normal(Split(start + "/" + RelPath(path, start), "/")) == Normal(Split(path, "/"))
  {
    var from, p := Split(start, "/"), Normal(Split(path, "/"));
    var i := CommonPrefix(p, Normal(from));
    NormalNames(Split(path, "/"));
    SplitWithout(path, "/", '/');
    NormalParts(Split(path, "/"), '/');
    PartsOfJoin(Ups(|Normal(from)| - i) + p[i..]);
    hide Normal, Split, Join, CommonPrefix, RelPath;
    RelPathParts(path, start);
    SplitAtSlash(start, RelPath(path, start), "/");
    UpAndDown(from, p, i);
    DotStaysPut(from);
  }

  lemma {:induction false} SlashesAtTheEnd(dir: string)
    ensures Normal(Split(RStripChar(dir, '/'), "/")) == Normal(Split(dir, "/"))
  {
    if dir != "" && dir[|dir| - 1] == '/' {
      var rest := dir[..|dir| - 1];
      SlashesAtTheEnd(rest);
      SplitAtSlash(rest, "", "/");
      assert dir == rest + "/" + "";
      var parts := Split(rest, "/");
      assert (parts + [""])[..|parts|] == parts;
    }
  }

  lemma {:induction false} CommonWithOwnPrefix(s: seq<string>, more: seq<string>)
    ensures CommonPrefix(s + more, s) == |s|
  {
    if s != [] {
      CommonWithOwnPrefix(s[1..], more);
      assert (s + more)[1..] == s[1..] + more;
    }
  }

  /** A path below a directory is, relative to it, what follows the directory. */
  lemma BelowTheStart(dir: string, parts: seq<string>)
    requires parts != [] && AllName(parts) && AllWithout(parts, '/')
    ensures RelPath(RStripChar(dir, '/') + "/" + Join(parts, "/"), dir) == Join(parts, "/")
  {
    var base := RStripChar(dir, '/');
    SplitAtSlash(base, Join(parts, "/"), "/");
    SplitUndoesJoin(parts);
    NormalGoesDown(Split(base, "/"), parts);
    SlashesAtTheEnd(dir);
    var s := Normal(Split(dir, "/"));
    CommonWithOwnPrefix(s, parts);
    assert (s + parts)[|s|..] == parts;
    hide Normal, Split, Join, RStripChar, CommonPrefix;
    assert seq(0, k requires 0 <= k < 0 => "..") + parts == parts;
  }

  // ---------------------------------------------------------------- staying inside

  lemma {:induction false} NeverAbove(above: seq<string>, parts: seq<string>)
    requires ".." !in parts
    ensures Normal(above) <= Normal(above + parts)
  {
    if parts == [] {
      assert above + parts == above;
    } else {
      var n := |parts| - 1;
      NeverAbove(above, parts[..n]);
      assert (above + parts)[..|above + parts| - 1] == above + parts[..n];
      assert parts[n] != "..";
    }
  }

  /** No path the agent reports, and none the endpoint accepts, leaves the directory it is joined
      to, whichever way the slashes lean for the latter. */
  lemma PathsStayInside(dir: string, row: Row, workspace: string, f: Finding)
    ensures ToFinding(row, workspace).Some? ==>
              Normal(Split(dir, "/")) <= Normal(Split(dir + "/" + ToFinding(row, workspace).value.file, "/"))
    ensures IngestAccepts(f) ==> Normal(Split(dir, "\\/")) <= Normal(Split(dir + "/" + f.file, "\\/"))
  {
    hide Normal, Split, RelativePath, Strip;
    if ToFinding(row, workspace).Some? {
      var file := ToFinding(row, workspace).value.file;
      SplitAtSlash(dir, file, "/");
      NeverAbove(Split(dir, "/"), Split(file, "/"));
    }
    if IngestAccepts(f) {
      SplitAtSlash(dir, f.file, "\\/");
      NeverAbove(Split(dir, "\\/"), Split(f.file, "\\/"));
    }
  }

  // ---------------------------------------------------------------- one file, one path

  lemma FirstPart(part: string, rest: string)
    requires part != "" && Without(part, '/')
    ensures "./" <= part + rest ==> part == "."
  {
    if |part| > 1 { assert (part + rest)[1] == part[1]; } else { assert part == [(part + rest)[0]]; }
  }

  lemma JoinStarts(parts: seq<string>)
    requires parts != [] && AllName(parts) && AllWithout(parts, '/')
    ensures var r := Join(parts, "/"); r != "" && !("/" <= r) && !("./" <= r)
  {
    var r := Join(parts, "/");
    assert Names(parts[0]) && parts[0][0] != '/';
    FirstPart(parts[0], r[|parts[0]|..]);
    assert r == parts[0] + r[|parts[0]|..];
  }

  lemma {:induction false} DotsStrip(n: nat, r: string)
    requires !("./" <= r)
    ensures StripDots(Dots(n) + r) == r
  {
    if n == 0 {
      assert Dots(0) + r == r;
    } else {
      DotsStrip(n - 1, r);
      var rest := Dots(n - 1) + r;
      assert Dots(n) + r == "./" + rest;
      hide Dots;
      assert ("./" + rest)[2..] == rest;
    }
  }

  lemma CleanText(p: string)
    requires p != "" && !IsSpace(p[0]) && !IsSpace(p[|p| - 1]) && Without(p, '\\')
    ensures ReplaceChar(Strip(p), '\\', '/') == p
  {
  }

  lemma {:induction false} RStripKeeps(s: string, c: char)
    ensures RStripChar(s, c) <= s
  {
    if s != "" && s[|s| - 1] == c { RStripKeeps(s[..|s| - 1], c); }
  }

  lemma {:induction false} DotsShape(n: nat, r: string)
    requires r != "" && !IsSpace(r[0]) && !("/" <= r) && Without(r, '\\')
    ensures Without(Dots(n) + r, '\\') && !IsSpace((Dots(n) + r)[0]) && !("/" <= Dots(n) + r)
    ensures (Dots(n) + r)[|Dots(n) + r| - 1] == r[|r| - 1]
  {
    if n > 0 { DotsShape(n - 1, r); assert Dots(n) + r == "./" + (Dots(n - 1) + r); }
  }

  lemma InsideIsRelative(workspace: string, p: string, n: nat)
    requires p != "" && !("/" <= p) && !("./" <= p) && !IsSpace(p[0]) && !IsSpace(p[|p| - 1]) && Without(p, '\\')
    requires |p| <= 1024
    ensures RelativePath(Dots(n) + p, workspace) == p
  {
    DotsShape(n, p);
    CleanText(Dots(n) + p);
    DotsStrip(n, p);
    hide StripDots, Dots, Strip, IsSpace, ReplaceChar;
  }

  /** One file has one path: spelled from the root, from the workspace, or with any number of
      leading "./", a path inside the workspace is reported as what follows it. */
  lemma OneFileOnePath(workspace: string, parts: seq<string>, n: nat)
    requires parts != [] && AllName(parts) && AllWithout(parts, '/')
    requires "/" <= workspace && Without(workspace, '\\')
    requires var r := Join(parts, "/");
             r != "" && !IsSpace(r[0]) && !IsSpace(r[|r| - 1]) && Without(r, '\\') && |r| <= 1024
    ensures var r := Join(parts, "/");
            && RelativePath(RStripChar(workspace, '/') + "/" + r, workspace) == r
            && RelativePath(Dots(n) + r, workspace) == r
  {
    hide Join, RelPath, Dots, Strip, RStripChar, AllName, IsSpace, ReplaceChar, RelativePath;
    var r, base := Join(parts, "/"), RStripChar(workspace, '/');
    JoinStarts(parts);
    BelowTheStart(workspace, parts);
    RStripKeeps(workspace, '/');
    InsideIsRelative(workspace, r, n);
    NotASpace();
    CleanPath(base, r);
    FromTheRoot(workspace, base + "/" + r, r);
  }

  lemma NotASpace()
    ensures !IsSpace('/')
  {
  }

  lemma CleanPath(base: string, r: string)
    requires r != "" && !IsSpace(r[|r| - 1]) && Without(r, '\\') && Without(base, '\\')
    requires base == "" || (base[0] == '/' && !IsSpace('/'))
    ensures ReplaceChar(Strip(base + "/" + r), '\\', '/') == base + "/" + r && "/" <= base + "/" + r
  {
    var p := base + "/" + r;
    assert p[0] == '/' && p[|p| - 1] == r[|r| - 1];
    CleanText(p);
  }

  lemma FromTheRoot(workspace: string, p: string, r: string)
    requires ReplaceChar(Strip(p), '\\', '/') == p && "/" <= p && RStripChar(workspace, '/') + "/" <= p
    requires RelPath(p, workspace) == r && !("./" <= r) && |r| <= 1024
    ensures RelativePath(p, workspace) == r
  {
    hide Strip, RStripChar, RelPath, ReplaceChar;
  }
}
