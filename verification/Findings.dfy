/** From the agent's Semgrep rows to findings, and what the ingest endpoint accepts
    (agent/security.py, agent/review.py, app/schemas/ci.py). */
module Findings {
  import opened Common
  import opened PyText

  // The two sides declare these bounds separately.
  const MAX_MESSAGE_LEN := 4000
  const MAX_FILE_LEN := 1024
  const MAX_CWE_LEN := 200
  const MAX_FINDINGS := 500
  const MAX_TOKENS := 10_000_000
  const MAX_MODEL_LEN := 200
  const MAX_BUILD_LEN := 255

  datatype Severity = Low | Medium | High | Critical

  /** `metadata.cwe`: absent counts as an empty list. */
  datatype Cwe = CweList(items: seq<string>) | CweText(text: string)

  /** One element of `results`, after the `str(...)` conversions. A malformed one is an object
      whose `extra`, `metadata` or `start` is neither falsy nor an object; reading it raises. */
  datatype Row =
    | NotAnObject
    | Malformed
    | Row(path: string, message: string, severity: string, confidence: string, cwe: Cwe, line: Option<int>)

  datatype Finding = Finding(severity: Severity, file: string, line: Option<int>, message: string, cwe: Option<string>)

  // ---------------------------------------------------------------- severity and gate

  function MapSeverity(severity: string, confidence: string): Severity {
    var sev := Upper(severity);
    if sev == "ERROR" then (if Upper(confidence) == "HIGH" then Critical else High)
    else if sev == "WARNING" then Medium
    else Low
  }

  datatype Gate = Pass | Fail

  predicate Blocks(findings: seq<Finding>, failOn: set<Severity>) {
    exists i | 0 <= i < |findings| :: findings[i].severity in failOn
  }

  function BlockingCount(findings: seq<Finding>, failOn: set<Severity>): (n: nat)
    ensures n > 0 <==> Blocks(findings, failOn)
  {
    if findings == [] then 0
    else
      var front, last := findings[..|findings| - 1], findings[|findings| - 1];
      assert findings == front + [last];
      assert forall i | 0 <= i < |front| :: front[i] == findings[i];
      BlockingCount(front, failOn) + if last.severity in failOn then 1 else 0
  }

  /** Also returns how many findings the reason counts. */
  method ApplyGate(findings: seq<Finding>, failOn: set<Severity>) returns (gate: Gate, blocking: nat)
    ensures gate == Fail <==> Blocks(findings, failOn)
    ensures blocking == BlockingCount(findings, failOn)
  {
    blocking := 0;
    for i := 0 to |findings|
      invariant blocking == BlockingCount(findings[..i], failOn)
    {
      assert findings[..i + 1][..i] == findings[..i];
      if findings[i].severity in failOn {
        blocking := blocking + 1;
      }
    }
    assert findings[..|findings|] == findings;
    gate := if blocking > 0 then Fail else Pass;
  }

  // ---------------------------------------------------------------- paths

  /** posixpath.normpath on the components of an absolute path. */
  function Normal(parts: seq<string>): seq<string> {
    if parts == [] then []
    else
      var before := Normal(parts[..|parts| - 1]);
      var last := parts[|parts| - 1];
      if last == "" || last == "." then before
      else if last == ".." then (if before == [] then before else before[..|before| - 1])
      else before + [last]
  }

  function CommonPrefix(a: seq<string>, b: seq<string>): (n: nat)
    ensures n <= |a| && n <= |b| && a[..n] == b[..n] && (n < |a| && n < |b| ==> a[n] != b[n])
  {
    if a != [] && b != [] && a[0] == b[0] then
      var n := 1 + CommonPrefix(a[1..], b[1..]);
      assert a[..n] == [a[0]] + a[1..][..n - 1] && b[..n] == [b[0]] + b[1..][..n - 1];
      n
    else 0
  }

  /** os.path.relpath of one absolute path from another. */
  function RelPath(path: string, start: string): string {
    var p, s := Normal(Split(path, "/")), Normal(Split(start, "/"));
    var i := CommonPrefix(p, s);
    var parts := seq(|s| - i, k requires 0 <= k < |s| - i => "..") + p[i..];
    if parts == [] then "." else Join(parts, "/")
  }

  /** Removes every leading "./". */
  function StripDots(p: string): string {
    if "./" <= p then StripDots(p[2..]) else p
  }

  /** The path once its backslashes are turned and its root is taken off. */
  function Anchored(path: string, workspace: string): string {
    var p := ReplaceChar(Strip(path), '\\', '/');
    if "/" <= p then
      if RStripChar(workspace, '/') + "/" <= p then RelPath(p, workspace) else LStripChar(p, '/')
    else p
  }

  function RelativePath(path: string, workspace: string): string {
    Truncate(StripDots(Anchored(path, workspace)), MAX_FILE_LEN)
  }

  method ComputeRelativePath(path: string, workspace: string) returns (p: string)
    ensures p == RelativePath(path, workspace)
  {
    p := ReplaceChar(Strip(path), '\\', '/');
    if "/" <= p {
      p := if RStripChar(workspace, '/') + "/" <= p then RelPath(p, workspace) else LStripChar(p, '/');
    }
    while "./" <= p
      invariant StripDots(p) == StripDots(Anchored(path, workspace))
      decreases |p|
    {
      p := p[2..];
    }
    p := Truncate(p, MAX_FILE_LEN);
  }

  // ---------------------------------------------------------------- rows to findings

  function CweOf(cwe: Cwe): Option<string> {
    match cwe
    case CweList(items) => if items != [] then Some(Truncate(items[0], MAX_CWE_LEN)) else None
    case CweText(text) => if text != "" then Some(Truncate(text, MAX_CWE_LEN)) else None
  }

  /** The finding a row becomes, or None for a row that is dropped. */
  function ToFinding(row: Row, workspace: string): Option<Finding> {
    match row
    case NotAnObject => None
    case Malformed => None
    case Row(path, message, severity, confidence, cwe, line) =>
      var file := RelativePath(path, workspace);
      var text := Truncate(Strip(message), MAX_MESSAGE_LEN);
      if file == "" || text == "" || ".." in Split(file, "/") then None
      else
        var at := if line.Some? && line.value >= 0 then line else None;
        Some(Finding(MapSeverity(severity, confidence), file, at, text, CweOf(cwe)))
  }

  function Converted(rows: seq<Row>, workspace: string): seq<Option<Finding>> {
    seq(|rows|, i requires 0 <= i < |rows| => ToFinding(rows[i], workspace))
  }

  /** The findings of the rows that are kept, in row order. */
  function Kept(rows: seq<Row>, workspace: string): seq<Finding> {
    Somes(Converted(rows, workspace))
  }

  /** No row makes the conversion raise. */
  predicate Readable(rows: seq<Row>) { Malformed !in rows }

  /** The conversion raises on the first malformed row; what it has built by then is lost. */
  method ToFindings(rows: seq<Row>, workspace: string) returns (findings: Option<seq<Finding>>, dropped: nat)
    ensures findings == if Readable(rows) then Some(Kept(rows, workspace)) else None
    ensures findings.Some? ==> |findings.value| + dropped == |rows|
  {
    var kept := [];
    dropped := 0;
    for i := 0 to |rows|
      invariant kept == Kept(rows[..i], workspace)
      invariant |kept| + dropped == i && Malformed !in rows[..i]
    {
      var row := rows[i];
      assert Converted(rows[..i + 1], workspace) == Converted(rows[..i], workspace) + [ToFinding(row, workspace)];
      if row.NotAnObject? {
        dropped := dropped + 1;
        continue;
      }
      if row.Malformed? {
        return None, dropped;
      }
      var path := ComputeRelativePath(row.path, workspace);
      var message := Truncate(Strip(row.message), MAX_MESSAGE_LEN);
      if path == "" || message == "" || ".." in Split(path, "/") {
        dropped := dropped + 1;
        continue;
      }
      var line := if row.line.Some? && row.line.value >= 0 then row.line else None;
      kept := kept + [Finding(MapSeverity(row.severity, row.confidence), path, line, message, CweOf(row.cwe))];
    }
    assert rows[..|rows|] == rows;
    findings := Some(kept);
  }

  /** The severity table: ERROR is critical with HIGH confidence and high without, WARNING is
      medium, everything else low; case does not matter. */
  lemma SeverityTable(severity: string, confidence: string)
    ensures var s := MapSeverity(severity, confidence);
            && (s == Critical <==> Upper(severity) == "ERROR" && Upper(confidence) == "HIGH")
            && (s == High <==> Upper(severity) == "ERROR" && Upper(confidence) != "HIGH")
            && (s == Medium <==> Upper(severity) == "WARNING")
            && (s == Low <==> Upper(severity) !in {"ERROR", "WARNING"})
    ensures MapSeverity(Upper(severity), Lower(confidence)) == MapSeverity(severity, confidence)
  {
    assert Upper(Upper(severity)) == Upper(severity) && Upper(Lower(confidence)) == Upper(confidence);
    hide Upper, Lower;
  }

  /** A row is dropped exactly if it is no object, or its path or message comes to nothing, or its
      path climbs. The finding it becomes otherwise has its message and first CWE, each up to the
      length kept, and its line unless that is negative. */
  lemma FindingSays(row: Row, workspace: string)
    requires row.Row?
    ensures var file := RelativePath(row.path, workspace);
            ToFinding(row, workspace).None? <==> file == "" || Strip(row.message) == "" || ".." in Split(file, "/")
    ensures ToFinding(row, workspace).Some? ==>
              var f := ToFinding(row, workspace).value;
              && f.file == RelativePath(row.path, workspace) && f.severity == MapSeverity(row.severity, row.confidence)
              && f.message <= Strip(row.message) && |f.message| == Min(|Strip(row.message)|, 4000)
              && (f.line.Some? <==> row.line.Some? && row.line.value >= 0) && (f.line.Some? ==> f.line == row.line)
              && (f.cwe.None? <==> row.cwe == CweList([]) || row.cwe == CweText(""))
              && (f.cwe.Some? ==> var whole := if row.cwe.CweList? then row.cwe.items[0] else row.cwe.text;
                                  f.cwe.value <= whole && |f.cwe.value| == Min(|whole|, 200))
  {
    hide RelativePath, Strip, Split, MapSeverity;
  }

  /** Order is kept and nothing is invented: the findings are, in order, those of an
      increasing choice of rows, and every row left out was a row to drop. */
  lemma KeptRows(rows: seq<Row>, workspace: string) returns (from: seq<nat>)
    ensures |from| == |Kept(rows, workspace)|
    ensures forall k | 0 <= k < |from| ::
              from[k] < |rows| && ToFinding(rows[from[k]], workspace) == Some(Kept(rows, workspace)[k])
    ensures forall j, k | 0 <= j < k < |from| :: from[j] < from[k]
    ensures forall r | 0 <= r < |rows| && r !in from :: ToFinding(rows[r], workspace).None?
  {
    from := SomesPositions(Converted(rows, workspace));
  }

  predicate BlockingRow(row: Row, workspace: string, failOn: set<Severity>) {
    ToFinding(row, workspace).Some? && MapSeverity(row.severity, row.confidence) in failOn
  }

  /** The gate fails exactly when a row that is kept maps to a blocking severity. */
  lemma GateOnRows(rows: seq<Row>, workspace: string, failOn: set<Severity>)
    ensures Blocks(Kept(rows, workspace), failOn) <==>
            exists r | 0 <= r < |rows| :: BlockingRow(rows[r], workspace, failOn)
  {
    var from := KeptRows(rows, workspace);
    var kept := Kept(rows, workspace);
    if i :| 0 <= i < |kept| && kept[i].severity in failOn {
      assert BlockingRow(rows[from[i]], workspace, failOn);
    }
    if r :| 0 <= r < |rows| && BlockingRow(rows[r], workspace, failOn) {
      var k :| 0 <= k < |from| && from[k] == r;
      assert kept[k].severity in failOn;
    }
  }

  predicate IsHighError(row: Row) { row.Row? && Upper(row.severity) == "ERROR" && Upper(row.confidence) == "HIGH" }

  /** Under the security default the only blocking combination is ERROR with HIGH, in any case. */
  lemma DefaultBlockingRow(row: Row, workspace: string)
    ensures BlockingRow(row, workspace, {Critical}) <==> IsHighError(row) && ToFinding(row, workspace).Some?
  {
  }

  // ---------------------------------------------------------------- what the ingest accepts

  /** ^[A-Za-z]:[\\/] */
  predicate DrivePrefix(p: string) {
    |p| >= 3 && ('A' <= p[0] <= 'Z' || 'a' <= p[0] <= 'z') && p[1] == ':' && p[2] in "\\/"
  }

  /** The field checks of `IngestFinding`. */
  predicate IngestAccepts(f: Finding) {
    && 1 <= |f.file| <= MAX_FILE_LEN
    && !("/" <= f.file || "\\" <= f.file || DrivePrefix(f.file))
    && ".." !in Split(f.file, "\\/")
    && (f.line.Some? ==> f.line.value >= 0)
    && 1 <= |f.message| <= MAX_MESSAGE_LEN
    && (f.cwe.Some? ==> |f.cwe.value| <= MAX_CWE_LEN)
  }

  /** What the agent posts about a run; a review has no cache count. */
  datatype Payload = Payload(findings: seq<Finding>, tokensIn: nat, tokensOut: nat, cacheRead: Option<nat>,
                             model: string, buildId: string)

  /** [A-Za-z0-9._#/%-] */
  predicate IsBuildChar(c: char) {
    'A' <= c <= 'Z' || 'a' <= c <= 'z' || '0' <= c <= '9' || c in "._#/%-"
  }

  predicate BuildIdAccepted(id: string) {
    1 <= |id| <= MAX_BUILD_LEN && forall i | 0 <= i < |id| :: IsBuildChar(id[i])
  }

  /** `CiRunIngest`'s bounds on the run around its findings. */
  predicate WithinRunBounds(findings: nat, p: Payload) {
    && findings <= MAX_FINDINGS
    && p.tokensIn <= MAX_TOKENS && p.tokensOut <= MAX_TOKENS
    && (p.cacheRead.Some? ==> p.cacheRead.value <= MAX_TOKENS)
    && 1 <= |p.model| <= MAX_MODEL_LEN
    && BuildIdAccepted(p.buildId)
  }

  /** All the checks of `CiRunIngest`. */
  predicate RunAccepted(p: Payload) {
    && WithinRunBounds(|p.findings|, p)
    && forall i | 0 <= i < |p.findings| :: IngestAccepts(p.findings[i])
  }

  /** n copies of "./" */
  function Dots(n: nat): (s: string)
    ensures |s| == 2 * n
  {
    if n == 0 then "" else "./" + Dots(n - 1)
  }

  /** The two shapes stripping leaves behind: at least one "./" and then a root, or any
      number of them and then a drive. */
  predicate LeavesAbsolute(p: string, n: nat) {
    && Dots(n) <= p
    && ((n > 0 && "/" <= p[2 * n..]) || DrivePrefix(p[2 * n..]))
  }

  lemma OneMoreDot(p: string, n: nat)
    requires LeavesAbsolute(p, n)
    ensures LeavesAbsolute("./" + p, n + 1)
  {
    assert ("./" + p)[2 * (n + 1)..] == p[2 * n..];
  }

  lemma OneDotLess(p: string, n: nat)
    requires LeavesAbsolute("./" + p, n) && !("/" <= p)
    ensures n > 0 && LeavesAbsolute(p, n - 1)
  {
    assert ("./" + p)[0..] == "./" + p;
    if n > 0 {
      assert ("./" + p)[2 * n..] == p[2 * (n - 1)..];
      assert Dots(n - 1) == Dots(n)[2..] <= p;
    }
  }

  lemma {:induction false} StripDotsShape(p: string)
    requires !("/" <= p)
    ensures ("/" <= StripDots(p) || DrivePrefix(StripDots(p))) <==> exists n: nat :: LeavesAbsolute(p, n)
  {
    if "./" <= p {
      var rest := p[2..];
      assert p == "./" + rest;
      if "/" <= rest {
        assert Dots(1) == "./" by { assert Dots(0) == ""; }
        assert LeavesAbsolute(p, 1);
        assert StripDots(rest) == rest;
      } else {
        StripDotsShape(rest);
        assert StripDots(p) == StripDots(rest);
        hide LeavesAbsolute, DrivePrefix, StripDots;
        if n: nat :| LeavesAbsolute(rest, n) { OneMoreDot(rest, n); }
        if n: nat :| LeavesAbsolute(p, n) { OneDotLess(rest, n); }
      }
    } else {
      assert p[0..] == p;
      assert DrivePrefix(p) ==> LeavesAbsolute(p, 0);
    }
  }

  lemma {:induction false} NormalParts(parts: seq<string>, c: char)
    requires AllWithout(parts, c)
    ensures AllWithout(Normal(parts), c)
    ensures forall i | 0 <= i < |Normal(parts)| :: Normal(parts)[i] != ""
  {
    if parts != [] { NormalParts(parts[..|parts| - 1], c); }
  }

  lemma JoinKeepsFront(parts: seq<string>, glue: string)
    requires parts != [] && parts[0] != "" && parts[0][0] != '/'
    ensures !("/" <= Join(parts, glue))
  {
  }

  lemma RelPathIsRelative(path: string, start: string)
    ensures !("/" <= RelPath(path, start))
    ensures Without(path, '\\') ==> Without(RelPath(path, start), '\\')
  {
    hide Normal, Split, Join, CommonPrefix;
    var p, s := Normal(Split(path, "/")), Normal(Split(start, "/"));
    var i := CommonPrefix(p, s);
    var parts := seq(|s| - i, k requires 0 <= k < |s| - i => "..") + p[i..];
    SplitWithout(path, "/", '/');
    NormalParts(Split(path, "/"), '/');
    if parts != [] { JoinKeepsFront(parts, "/"); }
    if Without(path, '\\') {
      SplitWithout(path, "/", '\\');
      NormalParts(Split(path, "/"), '\\');
      JoinWithout(parts, "/", '\\');
    }
  }

  lemma AnchoredIsRelative(path: string, workspace: string)
    ensures !("/" <= Anchored(path, workspace))
    ensures Without(Anchored(path, workspace), '\\')
  {
    var p := ReplaceChar(Strip(path), '\\', '/');
    if "/" <= p {
      RelPathIsRelative(p, workspace);
      var r := LStripChar(p, '/');
      var k :| 0 <= k <= |p| && r == p[k..];
      assert forall i | 0 <= i < |r| :: r[i] == p[k + i];
    }
  }

  lemma {:induction false} StripDotsWithout(p: string, c: char)
    requires Without(p, c)
    ensures Without(StripDots(p), c)
  {
    if "./" <= p { StripDotsWithout(p[2..], c); }
  }

  /** Producer and consumer agree exactly: an emitted finding fails the ingest's checks if and
      only if its path has one of the two shapes that stripping leaves absolute. */
  lemma EmittedFindingAccepted(row: Row, workspace: string)
    requires ToFinding(row, workspace).Some?
    ensures IngestAccepts(ToFinding(row, workspace).value) <==>
            !exists n: nat :: LeavesAbsolute(Anchored(row.path, workspace), n)
  {
    var f := ToFinding(row, workspace).value;
    var q := Anchored(row.path, workspace);
    AnchoredIsRelative(row.path, workspace);
    StripDotsWithout(q, '\\');
    StripDotsShape(q);
    SplitIgnoresAbsent(f.file, "/", '\\');
    assert "\\/" == ['\\'] + "/";
    assert DrivePrefix(f.file) == DrivePrefix(StripDots(q));
  }

  ghost predicate StaysRelative(row: Row, workspace: string) {
    row.Row? ==> !exists n: nat :: LeavesAbsolute(Anchored(row.path, workspace), n)
  }

  /** A whole run is accepted exactly when it stays within the run's own bounds and no kept
      row has such a path. The agent caps none of the bounded counts. */
  lemma EmittedRunAccepted(rows: seq<Row>, workspace: string, p: Payload)
    requires p.findings == Kept(rows, workspace)
    ensures RunAccepted(p) <==>
            && WithinRunBounds(|p.findings|, p)
            && forall r | 0 <= r < |rows| && ToFinding(rows[r], workspace).Some? :: StaysRelative(rows[r], workspace)
  {
    var from := KeptRows(rows, workspace);
    forall k | 0 <= k < |p.findings|
      ensures IngestAccepts(p.findings[k]) <==> StaysRelative(rows[from[k]], workspace)
    {
      EmittedFindingAccepted(rows[from[k]], workspace);
    }
  }

  /** The first shape does occur. */
  lemma AbsolutePathsSlipThrough(row: Row)
    requires row == Row(".//e", "m", "INFO", "", CweList([]), None)
    ensures ToFinding(row, "/workspace").Some?
    ensures !IngestAccepts(ToFinding(row, "/workspace").value)
  {
    var p := ".//e";
    assert Strip(p) == p && ReplaceChar(p, '\\', '/') == p;
    assert p[2..] == "/e";
    assert StripDots(p) == "/e";
    assert Split("e", "/") == ["e"] by { assert "e"[1..] == "" && ['e'] + "" == "e"; }
    assert Split("/e", "/") == ["", "e"] by { assert "/e"[1..] == "e"; }
    assert Strip("m") == "m";
  }

  /** So does the second. */
  lemma DrivePathsSlipThrough(row: Row)
    requires row == Row("C:/x", "m", "INFO", "", CweList([]), None)
    ensures ToFinding(row, "/workspace").Some?
    ensures !IngestAccepts(ToFinding(row, "/workspace").value)
  {
    var p := "C:/x";
    assert Strip(p) == p && ReplaceChar(p, '\\', '/') == p;
    assert StripDots(p) == p && DrivePrefix(p);
    assert Split("x", "/") == ["x"] by { assert "x"[1..] == "" && ['x'] + "" == "x"; }
    assert Split("/x", "/") == ["", "x"] by { assert "/x"[1..] == "x"; }
    assert Split(":/x", "/") == [":", "x"] by { assert ":/x"[1..] == "/x" && [':'] + "" == ":"; }
    assert Split(p, "/") == ["C:", "x"] by { assert p[1..] == ":/x" && ['C'] + ":" == "C:"; }
    assert Strip("m") == "m";
  }
}
