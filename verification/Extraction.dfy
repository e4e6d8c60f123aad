/** Which candidate of a model's final message is taken as its findings object
    (`extract_results` of agent/security.py). The JSON parser is a parameter. */
module Extraction {
  import opened Common
  import opened PyText
  import JsonScanner
  import opened JsonText

  /** What a candidate is to `json.loads`: not JSON, JSON of another shape, an object whose
      `results` is a list, or something the parser fails on otherwise (nested too deep, a number
      of too many digits). */
  datatype Parsed<+R> = NotJson | OtherJson | Results(rows: R) | ParserRaised

  /** What the search comes to. */
  datatype Read<+R> = Found(rows: R) | Nothing | Raised

  /** Drops the backslash of every escape JSON does not know, left to right. */
  function RepairJson(text: string): string {
    if text == [] then []
    else if text[0] == '\\' && |text| > 1 && text[1] !in "\"\\/bfnrtu" then [text[1]] + RepairJson(text[2..])
    else [text[0]] + RepairJson(text[1..])
  }

  /** A backslash before a character that JSON does not escape. */
  predicate BadEscapeAt(t: string, i: nat) { i + 1 < |t| && t[i] == '\\' && t[i + 1] !in "\"\\/bfnrtu" }

  /** The repair leaves a text alone exactly if there is no such pair in it. */
  lemma {:induction false} RepairExactly(t: string)
    ensures |RepairJson(t)| <= |t|
    ensures RepairJson(t) == t <==> forall i: nat :: !BadEscapeAt(t, i)
  {
    if t != "" {
      var rest := t[1..];
      assert t == [t[0]] + rest;
      RepairExactly(rest);
      if BadEscapeAt(t, 0) {
        RepairExactly(t[2..]);
      } else {
        assert RepairJson(t) == [t[0]] + RepairJson(rest);
        if i: nat :| BadEscapeAt(t, i) { assert BadEscapeAt(rest, i - 1); }
        if i: nat :| BadEscapeAt(rest, i) { assert BadEscapeAt(t, i + 1); }
      }
    }
  }

  /** Of the first such pair the backslash goes and the character stays, and the repair goes on
      after it. */
  lemma {:induction false} RepairDropsTheBackslash(before: string, c: char, after: string)
    requires c !in "\"\\/bfnrtu" && forall i: nat :: !BadEscapeAt(before, i)
    ensures RepairJson(before + ['\\', c] + after) == before + [c] + RepairJson(after)
  {
    var t := before + ['\\', c] + after;
    if before == "" {
      assert t == ['\\', c] + after && t[2..] == after;
    } else {
      var rest := before[1..];
      forall i: nat ensures !BadEscapeAt(rest, i) { assert !BadEscapeAt(before, i + 1); }
      RepairDropsTheBackslash(rest, c, after);
      assert t[1..] == rest + ['\\', c] + after;
      assert !BadEscapeAt(before, 0);
      assert before == [before[0]] + rest;
    }
  }

  /** So it also takes a backslash that was meant: of an escaped backslash before such a character
      one is lost, and the one that stays is then a bad escape itself. */
  lemma EscapedBackslashIsDamaged(before: string, c: char, after: string)
    requires c !in "\"\\/bfnrtu" && forall i: nat :: !BadEscapeAt(before + "\\", i)
    ensures RepairJson(before + ['\\', '\\', c] + after) == before + ['\\', c] + RepairJson(after)
    ensures BadEscapeAt(RepairJson(before + ['\\', '\\', c] + after), |before|)
  {
    RepairDropsTheBackslash(before + "\\", c, after);
    assert before + ['\\', '\\', c] + after == before + "\\" + ['\\', c] + after;
  }

  /** A candidate read as it stands or, failing that, repaired. */
  function Reading<R>(candidate: string, parse: string -> Parsed<R>): Read<R> {
    match parse(candidate)
    case Results(rows) => Found(rows)
    case ParserRaised => Raised
    case _ =>
      match parse(RepairJson(candidate))
      case Results(rows) => Found(rows)
      case ParserRaised => Raised
      case _ => Nothing
  }

  /** What a candidate comes to: the repaired text counts only once the parser has said that the
      candidate as it stands is not what is wanted. */
  lemma ReadingMeaning<R>(candidate: string, parse: string -> Parsed<R>, rows: R)
    ensures var raw, repaired := parse(candidate), parse(RepairJson(candidate));
            var another := raw.NotJson? || raw.OtherJson?;
            && (Reading(candidate, parse) == Found(rows) <==>
                raw == Results(rows) || (another && repaired == Results(rows)))
            && (Reading(candidate, parse).Raised? <==> raw.ParserRaised? || (another && repaired.ParserRaised?))
  {
    hide RepairJson;
  }

  /** The candidates in increasing order of tolerance: the whole message, the fenced blocks
      (`fenced`, which a regular expression finds), the balanced blocks. */
  function Candidates(text: string, fenced: seq<string>): seq<string> {
    [Strip(text)] + fenced + JsonScanner.Blocks(text)
  }

  /** The reading of the latest candidate that has one, or on which the parser fails. */
  function LatestReading<R>(candidates: seq<string>, parse: string -> Parsed<R>): Read<R> {
    if candidates == [] then Nothing
    else
      var last := Reading(candidates[|candidates| - 1], parse);
      if !last.Nothing? then last else LatestReading(candidates[..|candidates| - 1], parse)
  }

  lemma {:induction false} LatestOfTwo<R>(xs: seq<string>, ys: seq<string>, parse: string -> Parsed<R>)
    ensures LatestReading(xs + ys, parse) ==
            if LatestReading(ys, parse).Nothing? then LatestReading(xs, parse) else LatestReading(ys, parse)
  {
    hide Reading;
    if ys == [] {
      assert xs + ys == xs;
    } else {
      assert (xs + ys)[..|xs + ys| - 1] == xs + ys[..|ys| - 1];
      LatestOfTwo(xs, ys[..|ys| - 1], parse);
    }
  }

  function Extracted<R>(text: string, fenced: seq<string>, parse: string -> Parsed<R>): Read<R> {
    LatestReading(Candidates(text, fenced), parse)
  }

  method ExtractResults<R>(text: string, fenced: seq<string>, parse: string -> Parsed<R>)
    returns (results: Read<R>)
    ensures results == Extracted(text, fenced, parse)
  {
    hide RepairJson;
    var candidates := [Strip(text)];
    candidates := candidates + fenced;
    var blocks := JsonScanner.BalancedJsonBlocks(text);
    candidates := candidates + blocks;
    assert candidates == Candidates(text, fenced);
    var i := |candidates|;
    assert candidates[..i] == candidates;
    while i > 0
      invariant 0 <= i <= |candidates|
      invariant LatestReading(candidates, parse) == LatestReading(candidates[..i], parse)
    {
      i := i - 1;
      var cand := candidates[i];
      assert candidates[..i + 1][..i] == candidates[..i];
      var attempts := [cand, RepairJson(cand)];
      var k := 0;
      while k < 2
        invariant 0 <= k <= 2
        invariant k >= 1 ==> parse(cand).NotJson? || parse(cand).OtherJson?
        invariant k == 2 ==> parse(RepairJson(cand)).NotJson? || parse(RepairJson(cand)).OtherJson?
      {
        match parse(attempts[k]) {
          case NotJson =>
          case OtherJson =>
          case Results(rows) => return Found(rows);
          case ParserRaised => return Raised;
        }
        k := k + 1;
      }
    }
    return Nothing;
  }

  /** The choice, stated over positions: the search ends at some candidate, read raw before
      repaired, with nothing to read in any later one; or there is nothing to read in any. */
  lemma {:induction false} LatestReadingMeaning<R>(candidates: seq<string>, parse: string -> Parsed<R>)
    ensures LatestReading(candidates, parse).Nothing? <==>
            forall i | 0 <= i < |candidates| :: Reading(candidates[i], parse).Nothing?
    ensures !LatestReading(candidates, parse).Nothing? ==>
              exists i | 0 <= i < |candidates| ::
                && Reading(candidates[i], parse) == LatestReading(candidates, parse)
                && forall j | i < j < |candidates| :: Reading(candidates[j], parse).Nothing?
  {
    var n := |candidates| - 1;
    if n >= 0 {
      var front := candidates[..n];
      LatestReadingMeaning(front, parse);
      if Reading(candidates[n], parse).Nothing? {
        if !LatestReading(front, parse).Nothing? {
          var i :| 0 <= i < n && Reading(front[i], parse) == LatestReading(front, parse)
                   && forall j | i < j < n :: Reading(front[j], parse).Nothing?;
          forall j | i < j < |candidates| ensures Reading(candidates[j], parse).Nothing? {
            if j < n { assert candidates[j] == front[j]; }
          }
          assert Reading(candidates[i], parse) == LatestReading(candidates, parse);
        } else {
          forall i | 0 <= i < |candidates| ensures Reading(candidates[i], parse).Nothing? {
            if i < n { assert candidates[i] == front[i]; }
          }
        }
      }
    }
  }

  /** The order of trust: balanced blocks before fenced ones, and the whole message last. */
  lemma BlocksThenFencesThenAll<R>(text: string, fenced: seq<string>, parse: string -> Parsed<R>)
    ensures var block, fence := LatestReading(JsonScanner.Blocks(text), parse), LatestReading(fenced, parse);
            Extracted(text, fenced, parse) ==
            if !block.Nothing? then block else if !fence.Nothing? then fence else Reading(Strip(text), parse)
  {
    LatestOfTwo([Strip(text)] + fenced, JsonScanner.Blocks(text), parse);
    LatestOfTwo([Strip(text)], fenced, parse);
    hide Reading;
    assert [Strip(text)][..0] == [];
    assert LatestReading([Strip(text)], parse) == Reading(Strip(text), parse);
  }

  /** The model's final word: when a message is prose around objects and the last object
      parses to findings, those findings are extracted, whatever came before it. */
  lemma FinalObjectWins<R>(prose: seq<string>, objects: seq<Json>, fenced: seq<string>,
                           parse: string -> Parsed<R>, rows: R)
    requires objects != [] && |prose| == |objects| + 1
    requires forall i | 0 <= i < |prose| :: Quiet(prose[i])
    requires forall i | 0 <= i < |objects| :: objects[i].Obj? && Valid(objects[i])
    requires parse(Print(objects[|objects| - 1])) == Results(rows)
    ensures Extracted(Weave(prose, objects), fenced, parse) == Found(rows)
  {
    ObjectsRoundTrip(prose, objects);
    var text := Weave(prose, objects);
    var candidates := Candidates(text, fenced);
    assert candidates[|candidates| - 1] == JsonScanner.Blocks(text)[|objects| - 1];
  }

  /** Nothing is guessed: extracted findings are what the parser read off one of the
      message's own candidates, as it stands or repaired. */
  lemma NeverGuessed<R>(text: string, fenced: seq<string>, parse: string -> Parsed<R>, rows: R)
    requires Extracted(text, fenced, parse) == Found(rows)
    ensures exists c | c in Candidates(text, fenced) ::
              parse(c) == Results(rows) || parse(RepairJson(c)) == Results(rows)
  {
    LatestReadingMeaning(Candidates(text, fenced), parse);
  }
}
