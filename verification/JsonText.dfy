/** JSON texts as RFC 8259 prints them, and the round trip through the scanner of
    agent/security.py: every object comes back out of the surrounding prose verbatim. */
module JsonText {
  import opened JsonScanner

  // ---------------------------------------------------------------- concrete syntax

  /** One unit of a string literal (section 7): a character standing for itself, a
      two-character escape, or \uXXXX. */
  datatype Unit = Plain(c: char) | Escape(c: char) | Unicode(hex: string)

  /** A JSON text with the whitespace of section 2 kept where it was written. Literals are
      numbers, true, false and null. */
  datatype Json =
    | Literal(text: string)
    | Str(units: seq<Unit>)
    | Arr(pad: string, items: Items)
    | Obj(pad: string, members: Members)

  datatype Items =
    | NoItems
    | Item(before: string, value: Json, after: string, rest: Items)

  datatype Members =
    | NoMembers
    | Member(before: string, key: seq<Unit>, between: string, gap: string, value: Json, after: string, rest: Members)

  predicate ValidUnit(u: Unit) {
    match u
    case Plain(c) => c != '"' && c != '\\'
    case Escape(c) => c in "\"\\/bfnrt"
    case Unicode(hex) => |hex| == 4 && forall i | 0 <= i < 4 :: IsHex(hex[i])
  }

  predicate IsHex(c: char) { '0' <= c <= '9' || 'a' <= c <= 'f' || 'A' <= c <= 'F' }

  predicate IsWhitespace(s: string) { forall i | 0 <= i < |s| :: s[i] in " \t\n\r" }

  predicate IsLiteral(s: string) {
    s != [] && forall i | 0 <= i < |s| ::
      '0' <= s[i] <= '9' || 'a' <= s[i] <= 'z' || s[i] in "+-.E"
  }

  predicate ValidUnits(units: seq<Unit>) { forall i | 0 <= i < |units| :: ValidUnit(units[i]) }

  predicate Valid(j: Json) {
    match j
    case Literal(text) => IsLiteral(text)
    case Str(units) => ValidUnits(units)
    case Arr(pad, items) => IsWhitespace(pad) && ValidItems(items)
    case Obj(pad, members) => IsWhitespace(pad) && ValidMembers(members)
  }

  predicate ValidItems(items: Items) {
    match items
    case NoItems => true
    case Item(before, value, after, rest) =>
      IsWhitespace(before) && Valid(value) && IsWhitespace(after) && ValidItems(rest)
  }

  predicate ValidMembers(members: Members) {
    match members
    case NoMembers => true
    case Member(before, key, between, gap, value, after, rest) =>
      && IsWhitespace(before) && ValidUnits(key) && IsWhitespace(between) && IsWhitespace(gap)
      && Valid(value) && IsWhitespace(after) && ValidMembers(rest)
  }

  function PrintUnit(u: Unit): string {
    match u
    case Plain(c) => [c]
    case Escape(c) => ['\\', c]
    case Unicode(hex) => "\\u" + hex
  }

  function PrintUnits(units: seq<Unit>): string {
    if units == [] then [] else PrintUnit(units[0]) + PrintUnits(units[1..])
  }

  function PrintString(units: seq<Unit>): string { "\"" + PrintUnits(units) + "\"" }

  function Print(j: Json): string {
    match j
    case Literal(text) => text
    case Str(units) => PrintString(units)
    case Arr(pad, items) => "[" + pad + PrintItems(items) + "]"
    case Obj(pad, members) => "{" + ObjectBody(pad, members) + "}"
  }

  function ObjectBody(pad: string, members: Members): string
    decreases members, 1
  {
    pad + PrintMembers(members)
  }

  function PrintItems(items: Items): string {
    match items
    case NoItems => ""
    case Item(before, value, after, rest) =>
      before + Print(value) + after + (if rest == NoItems then "" else ",") + PrintItems(rest)
  }

  function PrintMembers(members: Members): string
    decreases members, 0
  {
    match members
    case NoMembers => ""
    case Member(before, key, between, gap, value, after, rest) =>
      PrintKey(before, key, between, gap) + Print(value)
      + (after + (if rest == NoMembers then "" else ",")) + PrintMembers(rest)
  }

  function PrintKey(before: string, key: seq<Unit>, between: string, gap: string): string {
    before + PrintString(key) + (between + ":" + gap)
  }

  // ---------------------------------------------------------------- scanning a printed text

  /** Reading s takes the scanner from one state to another without going below floor. */
  ghost predicate Path(from: St, s: string, floor: nat, to: St) {
    && Run(from, s) == to
    && forall k | 0 <= k <= |s| :: Run(from, s[..k]).depth >= floor
  }

  lemma PathConcat(from: St, a: string, mid: St, b: string, to: St, floor: nat)
    requires Path(from, a, floor, mid) && Path(mid, b, floor, to)
    ensures Path(from, a + b, floor, to)
  {
    RunConcat(from, a, b);
    forall k | 0 <= k <= |a + b|
      ensures Run(from, (a + b)[..k]).depth >= floor
    {
      if k <= |a| {
        assert (a + b)[..k] == a[..k];
      } else {
        assert (a + b)[..k] == a + b[..k - |a|];
        RunConcat(from, a, b[..k - |a|]);
      }
    }
  }

  lemma PathChar(from: St, c: char, floor: nat)
    requires from.depth >= floor && Step(from, c).depth >= floor
    ensures Path(from, [c], floor, Step(from, c))
  {
    assert [c][..0] == [] && [c][..1] == [c];
    assert Run(from, [c]) == Step(Run(from, []), c);
  }

  /** Text with no quote, brace or backslash leaves the scanner where it was. */
  lemma {:induction false} PathPlain(from: St, s: string, floor: nat)
    requires from.lex != Escaped && from.depth >= floor
    requires forall i | 0 <= i < |s| :: s[i] !in "\"{}\\"
    ensures Path(from, s, floor, from)
  {
    if s != [] {
      PathChar(from, s[0], floor);
      PathPlain(from, s[1..], floor);
      PathConcat(from, [s[0]], from, s[1..], from, floor);
      assert s == [s[0]] + s[1..];
    } else {
      assert s[..0] == [];
    }
  }

  lemma PathUnit(d: nat, u: Unit)
    requires ValidUnit(u)
    ensures Path(St(d, InString), PrintUnit(u), d, St(d, InString))
  {
    var body, esc := St(d, InString), St(d, Escaped);
    match u
    case Plain(c) => PathChar(body, c, d);
    case Escape(c) =>
      PathChar(body, '\\', d);
      PathChar(esc, c, d);
      PathConcat(body, ['\\'], esc, [c], body, d);
      assert PrintUnit(u) == ['\\'] + [c];
    case Unicode(hex) =>
      PathChar(body, '\\', d);
      PathChar(esc, 'u', d);
      PathConcat(body, ['\\'], esc, ['u'], body, d);
      assert "\\u" == ['\\'] + ['u'];
      PathPlain(body, hex, d);
      PathConcat(body, "\\u", body, hex, body, d);
  }

  lemma {:induction false} PathUnits(d: nat, units: seq<Unit>)
    requires ValidUnits(units)
    ensures Path(St(d, InString), PrintUnits(units), d, St(d, InString))
  {
    var body := St(d, InString);
    if units == [] {
      assert PrintUnits(units)[..0] == [];
    } else {
      PathUnit(d, units[0]);
      PathUnits(d, units[1..]);
      PathConcat(body, PrintUnit(units[0]), body, PrintUnits(units[1..]), body, d);
    }
  }

  /** A string literal is transparent, whatever braces, quotes or backslashes it spells. */
  lemma PathString(d: nat, units: seq<Unit>)
    requires ValidUnits(units)
    ensures Path(St(d, Outside), PrintString(units), d, St(d, Outside))
  {
    var out, body := St(d, Outside), St(d, InString);
    PathChar(out, '"', d);
    PathUnits(d, units);
    PathChar(body, '"', d);
    PathConcat(out, "\"", body, PrintUnits(units), body, d);
    PathConcat(out, "\"" + PrintUnits(units), body, "\"", out, d);
  }

  /** s, read outside strings at depth d, comes back to depth d without going below it. */
  ghost predicate Level(s: string, d: nat) {
    Path(St(d, Outside), s, d, St(d, Outside))
  }

  lemma LevelConcat(a: string, b: string, d: nat)
    requires Level(a, d) && Level(b, d)
    ensures Level(a + b, d)
  {
    PathConcat(St(d, Outside), a, St(d, Outside), b, St(d, Outside), d);
  }

  lemma LevelPlain(s: string, d: nat)
    requires forall i | 0 <= i < |s| :: s[i] !in "\"{}\\"
    ensures Level(s, d)
  {
    PathPlain(St(d, Outside), s, d);
  }

  lemma LevelBraces(m: string, d: nat)
    requires Level(m, d + 1)
    ensures Level("{" + m + "}", d)
    ensures Path(St(d + 1, Outside), m, d + 1, St(d + 1, Outside))
  {
    var low, high := St(d, Outside), St(d + 1, Outside);
    PathChar(low, '{', d);
    PathChar(high, '}', d);
    assert Path(high, m, d, high);
    PathConcat(low, "{", high, m, high, d);
    PathConcat(low, "{" + m, high, "}", low, d);
  }

  lemma {:induction false} PrintLevel(j: Json, d: nat)
    requires Valid(j)
    ensures Level(Print(j), d)
    decreases j
  {
    hide Path, Step, Run;
    match j
    case Literal(text) => LevelPlain(text, d);
    case Str(units) => PathString(d, units);
    case Arr(pad, items) =>
      LevelPlain("[", d);
      LevelPlain(pad, d);
      LevelConcat("[", pad, d);
      PrintItemsLevel(items, d);
      LevelConcat("[" + pad, PrintItems(items), d);
      LevelPlain("]", d);
      LevelConcat("[" + pad + PrintItems(items), "]", d);
    case Obj(pad, members) =>
      ObjectBodyLevel(pad, members, d + 1);
      LevelBraces(ObjectBody(pad, members), d);
  }

  lemma {:induction false} PrintItemsLevel(items: Items, d: nat)
    requires ValidItems(items)
    ensures Level(PrintItems(items), d)
    decreases items
  {
    hide Level, Path, Step, Run;
    match items
    case NoItems => LevelPlain("", d);
    case Item(before, value, after, rest) =>
      var comma := if rest == NoItems then "" else ",";
      LevelPlain(before, d);
      PrintLevel(value, d);
      LevelConcat(before, Print(value), d);
      LevelPlain(after, d);
      LevelConcat(before + Print(value), after, d);
      LevelPlain(comma, d);
      LevelConcat(before + Print(value) + after, comma, d);
      PrintItemsLevel(rest, d);
      LevelConcat(before + Print(value) + after + comma, PrintItems(rest), d);
  }

  lemma PrintKeyLevel(before: string, key: seq<Unit>, between: string, gap: string, d: nat)
    requires IsWhitespace(before) && ValidUnits(key) && IsWhitespace(between) && IsWhitespace(gap)
    ensures Level(PrintKey(before, key, between, gap), d)
  {
    hide Path, Step, Run;
    LevelPlain(before, d);
    PathString(d, key);
    LevelConcat(before, PrintString(key), d);
    LevelPlain(between + ":" + gap, d);
    LevelConcat(before + PrintString(key), between + ":" + gap, d);
  }

  lemma {:induction false} PrintMembersLevel(members: Members, d: nat)
    requires ValidMembers(members)
    ensures Level(PrintMembers(members), d)
    decreases members, 0
  {
    hide Level, Path, Step, Run;
    match members
    case NoMembers => LevelPlain("", d);
    case Member(before, key, between, gap, value, after, rest) =>
      var head := PrintKey(before, key, between, gap);
      var tail := after + (if rest == NoMembers then "" else ",");
      PrintKeyLevel(before, key, between, gap, d);
      PrintLevel(value, d);
      LevelConcat(head, Print(value), d);
      LevelPlain(tail, d);
      LevelConcat(head + Print(value), tail, d);
      PrintMembersLevel(rest, d);
      LevelConcat(head + Print(value) + tail, PrintMembers(rest), d);
  }

  // ---------------------------------------------------------------- the round trip

  /** Text in which nothing ever opens and every string literal is closed again. */
  ghost predicate Quiet(prose: string) {
    && At(prose, |prose|) == START
    && forall k | 0 <= k <= |prose| :: At(prose, k).depth == 0
  }

  /** Prose holding no quote and no opening brace is quiet. */
  lemma {:induction false} PlainProseIsQuiet(prose: string)
    requires forall i | 0 <= i < |prose| :: prose[i] != '"' && prose[i] != '{'
    ensures Quiet(prose)
  {
    if prose != [] {
      var n := |prose| - 1;
      var p := prose[..n];
      PlainProseIsQuiet(p);
      assert p[..n] == p;
      AtNext(prose, n);
      forall k | 0 <= k <= n
        ensures At(prose, k) == At(p, k)
      {
        assert prose[..k] == p[..k];
      }
    }
  }

  lemma {:induction false} NoCloseNoSpans(text: string, n: nat)
    requires n <= |text|
    requires forall k | 0 < k <= n :: !ClosesAt(text, k)
    ensures Spans(text, n) == []
  {
    if n > 0 { NoCloseNoSpans(text, n - 1); }
  }

  lemma QuietHasNoBlocks(prose: string)
    requires Quiet(prose)
    ensures Blocks(prose) == []
  {
    NoCloseNoSpans(prose, |prose|);
  }

  lemma {:induction false} OpeningAtFront(text: string, n: nat)
    requires n <= |text|
    requires forall k | 0 < k <= n :: At(text, k).depth > 0
    ensures Opening(text, n) == 0
  {
    if n > 0 { OpeningAtFront(text, n - 1); }
  }

  lemma InsideBraces(m: string, k: nat)
    requires Level(m, 1) && 0 < k < |m| + 2
    ensures At("{" + m + "}", k).depth > 0
  {
    assert ("{" + m + "}")[..k] == "{" + m[..k - 1];
    RunConcat(START, "{", m[..k - 1]);
    PathChar(START, '{', 0);
  }

  lemma ObjectBodyLevel(pad: string, members: Members, d: nat)
    requires IsWhitespace(pad) && ValidMembers(members)
    ensures Level(ObjectBody(pad, members), d)
    decreases members, 1
  {
    hide Level, Path, Step, Run;
    LevelPlain(pad, d);
    PrintMembersLevel(members, d);
    LevelConcat(pad, PrintMembers(members), d);
  }

  lemma OneBlock(t: string)
    requires t != [] && At(t, |t|) == START
    requires forall k | 0 < k < |t| :: At(t, k).depth > 0
    requires |t| > 1
    ensures Blocks(t) == [t]
  {
    var n := |t|;
    NoCloseNoSpans(t, n - 1);
    OpeningAtFront(t, n - 1);
    assert ClosesAt(t, n);
    assert Spans(t, n) == [(0, n)];
    assert t[0..n] == t;
    assert Blocks(t) == [t];
  }

  /** An object's text on its own is exactly one block, and leaves the scanner at its start. */
  lemma ObjectIsOneBlock(j: Json)
    requires j.Obj? && Valid(j)
    ensures At(Print(j), |Print(j)|) == START
    ensures Blocks(Print(j)) == [Print(j)]
  {
    var t := Print(j);
    assert At(t, |t|) == START by {
      PrintLevel(j, 0);
      assert t[..|t|] == t;
    }
    ObjectBodyLevel(j.pad, j.members, 1);
    forall k | 0 < k < |t| ensures At(t, k).depth > 0 { InsideBraces(ObjectBody(j.pad, j.members), k); }
    OneBlock(t);
  }

  /** Objects printed one after another, with prose before, between and after them. */
  function Weave(prose: seq<string>, objects: seq<Json>): string
    requires |prose| == |objects| + 1
  {
    if objects == [] then prose[0]
    else prose[0] + Print(objects[0]) + Weave(prose[1..], objects[1..])
  }

  function PrintAll(objects: seq<Json>): seq<string> {
    seq(|objects|, i requires 0 <= i < |objects| => Print(objects[i]))
  }

  lemma LeadingProse(prose: string, j: Json, rest: string)
    requires Quiet(prose) && j.Obj? && Valid(j)
    ensures Blocks(prose + Print(j) + rest) == [Print(j)] + Blocks(rest)
  {
    QuietHasNoBlocks(prose);
    ObjectIsOneBlock(j);
    BlocksSplit(Print(j), rest);
    BlocksSplit(prose, Print(j) + rest);
    assert prose + Print(j) + rest == prose + (Print(j) + rest);
  }

  /** Round trip: k objects in quiet prose come back as their k texts, in order. */
  lemma {:induction false} ObjectsRoundTrip(prose: seq<string>, objects: seq<Json>)
    requires |prose| == |objects| + 1
    requires forall i | 0 <= i < |prose| :: Quiet(prose[i])
    requires forall i | 0 <= i < |objects| :: objects[i].Obj? && Valid(objects[i])
    ensures Blocks(Weave(prose, objects)) == PrintAll(objects)
  {
    if objects == [] {
      QuietHasNoBlocks(prose[0]);
    } else {
      ObjectsRoundTrip(prose[1..], objects[1..]);
      LeadingProse(prose[0], objects[0], Weave(prose[1..], objects[1..]));
      assert PrintAll(objects) == [Print(objects[0])] + PrintAll(objects[1..]);
    }
  }
}
