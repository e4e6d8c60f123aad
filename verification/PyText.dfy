/** The Python string operations the agent's code leans on, on ASCII text. */
module PyText {
  /** The ASCII characters `str.strip()` removes. */
  predicate IsSpace(c: char) {
    c == ' ' || '\t' <= c <= '\r' || (28 as char) <= c <= (31 as char)
  }

  function LStrip(s: string): string {
    if s != [] && IsSpace(s[0]) then LStrip(s[1..]) else s
  }

  function RStrip(s: string): string {
    if s != [] && IsSpace(s[|s| - 1]) then RStrip(s[..|s| - 1]) else s
  }

  function Strip(s: string): string { RStrip(LStrip(s)) }

  function UpperChar(c: char): char {
    if 'a' <= c <= 'z' then ((c as int) - 32) as char else c
  }

  function LowerChar(c: char): char {
    if 'A' <= c <= 'Z' then ((c as int) + 32) as char else c
  }

  function Upper(s: string): string { seq(|s|, i requires 0 <= i < |s| => UpperChar(s[i])) }

  function Lower(s: string): string { seq(|s|, i requires 0 <= i < |s| => LowerChar(s[i])) }

  function Truncate(s: string, n: nat): string { if |s| <= n then s else s[..n] }

  predicate Contains(s: string, part: string) {
    part <= s || (s != [] && Contains(s[1..], part))
  }

  /** Removes every leading c. */
  function LStripChar(s: string, c: char): (r: string)
    ensures r == [] || r[0] != c
    ensures exists k | 0 <= k <= |s| :: r == s[k..]
  {
    if s != [] && s[0] == c then LStripChar(s[1..], c) else assert s == s[0..]; s
  }

  function RStripChar(s: string, c: char): string {
    if s != [] && s[|s| - 1] == c then RStripChar(s[..|s| - 1], c) else s
  }

  function ReplaceChar(s: string, target: char, substitute: char): (r: string)
    ensures |r| == |s|
    ensures forall i | 0 <= i < |s| :: r[i] == if s[i] == target then substitute else s[i]
  {
    seq(|s|, i requires 0 <= i < |s| => if s[i] == target then substitute else s[i])
  }

  /** The pieces of s between separators; never empty. */
  function Split(s: string, separators: string): (r: seq<string>)
    ensures r != []
  {
    if s == [] then [""]
    else
      var rest := Split(s[1..], separators);
      if s[0] in separators then [""] + rest else [[s[0]] + rest[0]] + rest[1..]
  }

  function Join(parts: seq<string>, glue: string): string {
    if parts == [] then ""
    else if |parts| == 1 then parts[0]
    else parts[0] + glue + Join(parts[1..], glue)
  }

  lemma {:induction false} LStripMeaning(s: string) returns (a: nat)
    ensures a <= |s| && LStrip(s) == s[a..] && (a < |s| ==> !IsSpace(s[a]))
    ensures forall i | 0 <= i < a :: IsSpace(s[i])
  {
    a := 0;
    if s != [] && IsSpace(s[0]) {
      var b := LStripMeaning(s[1..]);
      a := b + 1;
      forall i | 0 <= i < a ensures IsSpace(s[i]) {
        if i > 0 { assert s[1..][i - 1] == s[i]; }
      }
    }
  }

  lemma {:induction false} RStripMeaning(s: string) returns (b: nat)
    ensures b <= |s| && RStrip(s) == s[..b] && (b > 0 ==> !IsSpace(s[b - 1]))
    ensures forall i | b <= i < |s| :: IsSpace(s[i])
  {
    b := |s|;
    if s != [] && IsSpace(s[|s| - 1]) { b := RStripMeaning(s[..|s| - 1]); }
  }

  /** Stripping keeps one slice: it neither begins nor ends with a space, and all around it is. */
  lemma StripMeaning(s: string) returns (a: nat, b: nat)
    ensures a <= b <= |s| && Strip(s) == s[a..b]
    ensures a < b ==> !IsSpace(s[a]) && !IsSpace(s[b - 1])
    ensures forall i | 0 <= i < |s| && (i < a || b <= i) :: IsSpace(s[i])
  {
    a := LStripMeaning(s);
    var m := RStripMeaning(s[a..]);
    b := a + m;
    forall i | b <= i < |s| ensures IsSpace(s[i]) { assert s[a..][i - a] == s[i]; }
  }

  /** A text that neither begins nor ends with a space is left alone. */
  lemma StripKeeps(s: string)
    requires s != "" ==> !IsSpace(s[0]) && !IsSpace(s[|s| - 1])
    ensures Strip(s) == s
  {
  }

  /** The part occurs at a position of the text. */
  predicate OccursAt(s: string, part: string, i: nat) { i <= |s| && part <= s[i..] }

  lemma {:induction false} ContainsMeaning(s: string, part: string)
    ensures Contains(s, part) <==> exists i: nat :: OccursAt(s, part, i)
  {
    if part <= s { assert OccursAt(s, part, 0); }
    if s != [] {
      ContainsMeaning(s[1..], part);
      if i: nat :| OccursAt(s[1..], part, i) { assert s[1..][i..] == s[i + 1..] && OccursAt(s, part, i + 1); }
      if i: nat :| OccursAt(s, part, i) && i > 0 { assert s[1..][i - 1..] == s[i..] && OccursAt(s[1..], part, i - 1); }
    }
  }

  ghost predicate Without(s: string, c: char) { forall i | 0 <= i < |s| :: s[i] != c }

  ghost predicate AllWithout(parts: seq<string>, c: char) {
    forall i | 0 <= i < |parts| :: Without(parts[i], c)
  }

  lemma {:induction false} SplitWithout(s: string, separators: string, c: char)
    requires c in separators || Without(s, c)
    ensures AllWithout(Split(s, separators), c)
  {
    if s != [] { SplitWithout(s[1..], separators, c); }
  }

  lemma {:induction false} JoinWithout(parts: seq<string>, glue: string, c: char)
    requires AllWithout(parts, c) && Without(glue, c)
    ensures Without(Join(parts, glue), c)
  {
    if |parts| > 1 { JoinWithout(parts[1..], glue, c); }
  }

  /** Separators that do not occur make no difference. */
  lemma {:induction false} SplitIgnoresAbsent(s: string, separators: string, c: char)
    requires Without(s, c)
    ensures Split(s, [c] + separators) == Split(s, separators)
  {
    if s != [] { SplitIgnoresAbsent(s[1..], separators, c); }
  }
}
