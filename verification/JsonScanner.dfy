/** The scanner that pulls top-level JSON objects out of a model's free text
    (`_balanced_json_blocks` of agent/security.py). */
module JsonScanner {
  import opened Common

  // ---------------------------------------------------------------- lexical state

  /** Where a position stands with respect to string literals. */
  datatype Lex = Outside | InString | Escaped

  datatype St = St(depth: nat, lex: Lex)

  const START := St(0, Outside)

  /** The effect of one character. A `}` with nothing open is ignored. */
  function Step(st: St, c: char): St {
    match st.lex
    case Escaped => st.(lex := InString)
    case InString =>
      if c == '\\' then st.(lex := Escaped)
      else if c == '"' then st.(lex := Outside)
      else st
    case Outside =>
      if c == '"' then st.(lex := InString)
      else if c == '{' then st.(depth := st.depth + 1)
      else if c == '}' && st.depth > 0 then st.(depth := st.depth - 1)
      else st
  }

  function Run(st: St, s: string): St {
    if s == [] then st else Step(Run(st, s[..|s| - 1]), s[|s| - 1])
  }

  /** The state after the first n characters of a text. */
  function At(text: string, n: nat): St
    requires n <= |text|
  {
    Run(START, text[..n])
  }

  lemma AtNext(text: string, n: nat)
    requires n < |text|
    ensures At(text, n + 1) == Step(At(text, n), text[n])
  {
    assert text[..n + 1][..n] == text[..n];
  }

  // ---------------------------------------------------------------- top-level blocks

  /** [a, b) is a complete top-level object: it opens outside every string at depth 0,
      stays open on every proper nonempty prefix, and closes at b. */
  ghost predicate IsTopBlock(text: string, a: nat, b: nat) {
    && a < b <= |text|
    && At(text, a) == START
    && text[a] == '{'
    && At(text, b) == START
    && forall k | a < k < b :: At(text, k).depth > 0
  }

  /** The latest position at or before n where nothing is open. */
  function Opening(text: string, n: nat): (a: nat)
    requires n <= |text|
    ensures a <= n
  {
    if n == 0 || At(text, n).depth == 0 then n else Opening(text, n - 1)
  }

  lemma {:induction false} OpeningMeaning(text: string, n: nat)
    requires n <= |text|
    ensures At(text, Opening(text, n)).depth == 0
    ensures forall k | Opening(text, n) < k <= n :: At(text, k).depth > 0
  {
    if n > 0 { OpeningMeaning(text, n - 1); }
  }

  predicate ClosesAt(text: string, n: nat)
    requires n <= |text|
  {
    n > 0 && At(text, n).depth == 0 && At(text, n - 1).depth > 0
  }

  /** The top-level blocks that close within the first n characters, in order. */
  function Spans(text: string, n: nat): seq<(nat, nat)>
    requires n <= |text|
  {
    if n == 0 then []
    else if ClosesAt(text, n) then Spans(text, n - 1) + [(Opening(text, n - 1), n)]
    else Spans(text, n - 1)
  }

  lemma ClosedBlock(text: string, n: nat)
    requires n <= |text| && ClosesAt(text, n)
    ensures IsTopBlock(text, Opening(text, n - 1), n)
  {
    var a := Opening(text, n - 1);
    OpeningMeaning(text, n - 1);
    AtNext(text, n - 1);
    AtNext(text, a);
  }

  /** Spans lists every complete top-level block and nothing else. */
  lemma {:induction false} SpansExact(text: string, n: nat, a: nat, b: nat)
    requires n <= |text|
    ensures (a, b) in Spans(text, n) <==> b <= n && IsTopBlock(text, a, b)
  {
    if n > 0 {
      SpansExact(text, n - 1, a, b);
      if ClosesAt(text, n) { ClosedBlock(text, n); }
      if b == n && IsTopBlock(text, a, b) {
        AtNext(text, a);
        assert ClosesAt(text, n);
        OpeningMeaning(text, n - 1);
      }
    }
  }

  /** Blocks come in increasing order and do not overlap. */
  lemma {:induction false} SpansDisjoint(text: string, n: nat)
    requires n <= |text|
    ensures forall i | 0 <= i < |Spans(text, n)| :: Spans(text, n)[i].0 < Spans(text, n)[i].1 <= n
    ensures forall i, j | 0 <= i < j < |Spans(text, n)| :: Spans(text, n)[i].1 <= Spans(text, n)[j].0
  {
    hide Step, Run;
    if n > 0 {
      SpansDisjoint(text, n - 1);
      if ClosesAt(text, n) {
        var prev := Spans(text, n - 1);
        var o := Opening(text, n - 1);
        OpeningMeaning(text, n - 1);
        forall i | 0 <= i < |prev|
          ensures prev[i].1 <= o
        {
          SpansExact(text, n - 1, prev[i].0, prev[i].1);
          assert prev[i] in prev;
        }
      }
    }
  }

  function Slices(text: string, spans: seq<(nat, nat)>): (r: seq<string>)
    requires forall i | 0 <= i < |spans| :: spans[i].0 <= spans[i].1 <= |text|
    ensures |r| == |spans|
    ensures forall i | 0 <= i < |r| :: r[i] == text[spans[i].0..spans[i].1]
  {
    seq(|spans|, i requires 0 <= i < |spans| => text[spans[i].0..spans[i].1])
  }

  /** The texts of the top-level blocks that close within the first n characters, in order. */
  function BlocksUpTo(text: string, n: nat): seq<string>
    requires n <= |text|
  {
    SpansDisjoint(text, n);
    Slices(text, Spans(text, n))
  }

  function Blocks(text: string): seq<string> { BlocksUpTo(text, |text|) }

  /** The scanning loop of `_balanced_json_blocks`. */
  method BalancedJsonBlocks(text: string) returns (blocks: seq<string>)
    ensures blocks == Blocks(text)
  {
    blocks := [];
    var depth: nat := 0;
    var start: Option<nat> := None;
    var inString := false;
    var escaped := false;
    var i := 0;
    while i < |text|
      invariant 0 <= i <= |text|
      invariant At(text, i).depth == depth
      invariant At(text, i).lex == if !inString then Outside else if escaped then Escaped else InString
      invariant !inString ==> !escaped
      invariant depth > 0 ==> start == Some(Opening(text, i))
      invariant blocks == BlocksUpTo(text, i)
    {
      var ch := text[i];
      AtNext(text, i);
      SpansDisjoint(text, i);
      SpansDisjoint(text, i + 1);
      if inString {
        if escaped {
          escaped := false;
        } else if ch == '\\' {
          escaped := true;
        } else if ch == '"' {
          inString := false;
        }
      } else if ch == '"' {
        inString := true;
      } else if ch == '{' {
        if depth == 0 {
          start := Some(i);
        }
        depth := depth + 1;
      } else if ch == '}' {
        if depth > 0 {
          depth := depth - 1;
          if depth == 0 && start.Some? {
            blocks := blocks + [text[start.value..i + 1]];
          }
        }
      }
      i := i + 1;
    }
  }

  // ---------------------------------------------------------------- composing texts

  lemma {:induction false} RunConcat(st: St, a: string, b: string)
    ensures Run(st, a + b) == Run(Run(st, a), b)
  {
    if b == [] {
      assert a + b == a;
    } else {
      var b' := b[..|b| - 1];
      RunConcat(st, a, b');
      assert (a + b)[..|a + b| - 1] == a + b';
    }
  }

  /** Where the scanner is back at its start after a, it treats b as a fresh text. */
  lemma {:induction false} AtSplit(a: string, b: string, n: nat)
    requires At(a, |a|) == START && n <= |a + b|
    ensures n <= |a| ==> At(a + b, n) == At(a, n)
    ensures n >= |a| ==> At(a + b, n) == At(b, n - |a|)
  {
    assert a[..|a|] == a;
    if n <= |a| { assert (a + b)[..n] == a[..n]; }
    if n >= |a| {
      assert (a + b)[..n] == a + b[..n - |a|];
      RunConcat(START, a, b[..n - |a|]);
    }
  }

  lemma {:induction false} OpeningSplit(a: string, b: string, n: nat)
    requires At(a, |a|) == START && n <= |a + b|
    ensures n <= |a| ==> Opening(a + b, n) == Opening(a, n)
    ensures n >= |a| ==> Opening(a + b, n) == |a| + Opening(b, n - |a|)
  {
    AtSplit(a, b, n);
    if At(a + b, n).depth > 0 { OpeningSplit(a, b, n - 1); }
  }

  function Shift(spans: seq<(nat, nat)>, offset: nat): (r: seq<(nat, nat)>)
    ensures |r| == |spans|
    ensures forall i | 0 <= i < |r| :: r[i] == (spans[i].0 + offset, spans[i].1 + offset)
  {
    seq(|spans|, i requires 0 <= i < |spans| => (spans[i].0 + offset, spans[i].1 + offset))
  }

  lemma ShiftSnoc(spans: seq<(nat, nat)>, last: (nat, nat), offset: nat)
    ensures Shift(spans + [last], offset) == Shift(spans, offset) + [(last.0 + offset, last.1 + offset)]
  {
  }

  lemma {:induction false} SpansLeft(a: string, b: string, n: nat)
    requires At(a, |a|) == START && n <= |a|
    ensures Spans(a + b, n) == Spans(a, n)
  {
    hide Step, Run;
    if n > 0 {
      SpansLeft(a, b, n - 1);
      AtSplit(a, b, n);
      AtSplit(a, b, n - 1);
      OpeningSplit(a, b, n - 1);
    }
  }

  lemma {:induction false} SpansSplit(a: string, b: string, n: nat)
    requires At(a, |a|) == START && n <= |b|
    ensures Spans(a + b, |a| + n) == Spans(a, |a|) + Shift(Spans(b, n), |a|)
  {
    hide Step, Run;
    if n == 0 {
      SpansLeft(a, b, |a|);
      assert Shift(Spans(b, 0), |a|) == [];
    } else {
      SpansSplit(a, b, n - 1);
      AtSplit(a, b, |a| + n);
      AtSplit(a, b, |a| + n - 1);
      var m := |a| + n;
      assert ClosesAt(a + b, m) == ClosesAt(b, n);
      if ClosesAt(b, n) {
        OpeningSplit(a, b, m - 1);
        var block := (Opening(b, n - 1), n);
        ShiftSnoc(Spans(b, n - 1), block, |a|);
        assert Spans(a + b, m) == Spans(a + b, m - 1) + [(Opening(a + b, m - 1), m)];
        assert Spans(b, n) == Spans(b, n - 1) + [block];
      } else {
        assert Spans(a + b, m) == Spans(a + b, m - 1);
        assert Spans(b, n) == Spans(b, n - 1);
      }
    }
  }

  /** Scanning distributes over a split at a point where nothing is open. */
  lemma {:induction false} BlocksSplit(a: string, b: string)
    requires At(a, |a|) == START
    ensures Blocks(a + b) == Blocks(a) + Blocks(b)
  {
    hide Step, Run;
    SpansSplit(a, b, |b|);
    SpansDisjoint(a, |a|);
    SpansDisjoint(b, |b|);
    var sa, sb := Spans(a, |a|), Spans(b, |b|);
    forall i | 0 <= i < |sa| + |sb|
      ensures Blocks(a + b)[i] == (Blocks(a) + Blocks(b))[i]
    {
      if i < |sa| {
        assert (a + b)[sa[i].0..sa[i].1] == a[sa[i].0..sa[i].1];
      } else {
        var s := sb[i - |sa|];
        assert (a + b)[s.0 + |a|..s.1 + |a|] == b[s.0..s.1];
      }
    }
  }
}
