/** LLM ingestion of one source into the catalog (app/ingest/service.py). The provider and the
    clock are given; output validation is a function of the model's text; the content hash is
    taken to tell any two normalised texts apart. */
module Ingest {
  import opened Catalog
  import opened Common
  import opened Llm
  import opened PyText
  import opened TokenBudget

  // ---------------------------------------------------------------- the content key

  /** str.replace of CR LF by LF. */
  function ReplaceCrlf(t: string): string {
    if t == "" then ""
    else if "\r\n" <= t then "\n" + ReplaceCrlf(t[2..])
    else [t[0]] + ReplaceCrlf(t[1..])
  }

  function Normalize(t: string): string { Strip(ReplaceChar(ReplaceCrlf(t), '\r', '\n')) }

  /** The text with another line ending. */
  function WithLineEnd(t: string, end: string): string {
    if t == "" then "" else (if t[0] == '\n' then end else [t[0]]) + WithLineEnd(t[1..], end)
  }

  lemma {:induction false} CrlfUndone(t: string)
    requires '\r' !in t
    ensures ReplaceCrlf(WithLineEnd(t, "\r\n")) == t
  {
    if t != "" {
      var rest := WithLineEnd(t[1..], "\r\n");
      CrlfUndone(t[1..]);
      if t[0] == '\n' {
        assert ("\r\n" + rest)[2..] == rest;
        assert "\r\n" <= "\r\n" + rest;
      } else {
        assert ([t[0]] + rest)[1..] == rest;
      }
      assert t == [t[0]] + t[1..];
    }
  }

  lemma {:induction false} NoCrIsKept(t: string)
    requires '\r' !in t
    ensures ReplaceCrlf(t) == t
  {
    if t != "" {
      NoCrIsKept(t[1..]);
      assert t == [t[0]] + t[1..];
    }
  }

  lemma {:induction false} CrOnly(t: string)
    requires '\r' !in t
    ensures ReplaceChar(ReplaceCrlf(WithLineEnd(t, "\r")), '\r', '\n') == t
  {
    if t != "" {
      var all, rest := WithLineEnd(t, "\r"), WithLineEnd(t[1..], "\r");
      CrOnly(t[1..]);
      NoLf(t[1..]);
      assert all[1..] == rest && all == [all[0]] + rest;
      assert |all| > 1 ==> all[1] in rest;
      assert ReplaceCrlf(all) == [all[0]] + ReplaceCrlf(rest);
      assert ReplaceChar(ReplaceCrlf(all), '\r', '\n') == [t[0]] + ReplaceChar(ReplaceCrlf(rest), '\r', '\n');
      assert t == [t[0]] + t[1..];
    }
  }

  lemma {:induction false} NoLf(t: string)
    ensures '\n' !in WithLineEnd(t, "\r")
  {
    if t != "" { NoLf(t[1..]); }
  }

  /** Copies of a text that differ in their line endings have the same key. */
  lemma LineEndingsDoNotMatter(t: string)
    requires '\r' !in t
    ensures Normalize(WithLineEnd(t, "\r\n")) == Normalize(t) == Normalize(WithLineEnd(t, "\r"))
  {
    CrlfUndone(t);
    CrOnly(t);
    NoCrIsKept(t);
    assert ReplaceChar(t, '\r', '\n') == t;
  }

  /** A text that is stripped and has no carriage return is its own key, so no two of them share
      one. */
  lemma NormalTextsStay(t: string)
    requires '\r' !in t && (t != "" ==> !IsSpace(t[0]) && !IsSpace(t[|t| - 1]))
    ensures Normalize(t) == t
  {
    hide Strip, ReplaceCrlf, IsSpace;
    NoCrIsKept(t);
    StripKeeps(t);
    assert ReplaceChar(t, '\r', '\n') == t;
  }

  lemma {:induction false} KeptAfterCrlf(t: string, c: char)
    requires c in ReplaceCrlf(t)
    ensures c == '\n' || c in t
  {
    if t != "" && c != '\n' {
      if "\r\n" <= t {
        assert c in "\n" + ReplaceCrlf(t[2..]) && c !in "\n";
        KeptAfterCrlf(t[2..], c);
        assert c in t[2..];
      } else if c != t[0] {
        KeptAfterCrlf(t[1..], c);
        assert c in t[1..];
      }
    }
  }

  /** A key is such a text, whatever it was made from. */
  lemma KeysAreNormal(t: string)
    ensures var key := Normalize(t); '\r' !in key && (key != "" ==> !IsSpace(key[0]) && !IsSpace(key[|key| - 1]))
    ensures Normalize(Normalize(t)) == Normalize(t)
  {
    var u := ReplaceChar(ReplaceCrlf(t), '\r', '\n');
    var a, b := StripMeaning(u);
    assert '\r' !in u;
    forall i | 0 <= i < |Normalize(t)| ensures Normalize(t)[i] != '\r' { assert Normalize(t)[i] == u[a + i]; }
    NormalTextsStay(Normalize(t));
  }

  // ---------------------------------------------------------------- the catalog rows

  datatype Upserted = Upserted(store: Store, written: nat)

  /** The loop of upserts, each committed; the first conflict ends it. */
  function UpsertRows(s: Store, rows: seq<RowIn>, document: nat): (u: Upserted)
    ensures u.written <= |rows|
  {
    if rows == [] then Upserted(s, 0)
    else
      var n := |rows| - 1;
      var before := UpsertRows(s, rows[..n], document);
      if before.written < n || Conflicts(before.store, rows[n]) then before
      else Upserted(Write(before.store, rows[n], Some(document)), n + 1)
  }

  lemma {:induction false} UpsertStops(s: Store, rows: seq<RowIn>, n: nat, document: nat)
    requires n <= |rows| && UpsertRows(s, rows[..n], document).written < n
    ensures UpsertRows(s, rows, document) == UpsertRows(s, rows[..n], document)
    decreases |rows|
  {
    if n == |rows| {
      assert rows[..n] == rows;
    } else {
      var m := |rows| - 1;
      assert rows[..m][..n] == rows[..n];
      UpsertStops(s, rows[..m], n, document);
    }
  }

  /** After a complete run every row's identity is stored and names the source. */
  lemma {:induction false} RowsNameTheirSource(s: Store, rows: seq<RowIn>, document: nat, i: nat)
    requires UpsertRows(s, rows, document).written == |rows| && i < |rows|
    ensures var r := UpsertRows(s, rows, document).store.results;
            KeyOf(rows[i]) in r && r[KeyOf(rows[i])].document == Some(document)
  {
    hide RankingCost, ModelAfter, BenchmarkAfter, Conflicts;
    var n := |rows| - 1;
    if i < n { RowsNameTheirSource(s, rows[..n], document, i); }
  }

  /** The first row alone decides whether anything of the source is stored. */
  lemma {:induction false} FirstRowDecides(s: Store, rows: seq<RowIn>, document: nat)
    requires rows != []
    ensures UpsertRows(s, rows, document).written == 0 <==> Conflicts(s, rows[0])
  {
    if |rows| > 1 {
      FirstRowDecides(s, rows[..|rows| - 1], document);
    } else {
      assert rows[..0] == [];
    }
  }

  /** But for the provenance links, an ingest writes what the seed loader would write: it stops at
      the same row and leaves the same prices, benchmarks, harnesses and figures. */
  lemma {:induction false} WritesLikeTheLoader(s: Store, t: Store, rows: seq<RowIn>, document: nat)
    requires SameButLinks(s, t)
    ensures var u, l := UpsertRows(s, rows, document), Load(t, rows);
            SameButLinks(u.store, l.store) && (u.written == |rows| <==> l.clean)
  {
    if rows != [] {
      var n := |rows| - 1;
      WritesLikeTheLoader(s, t, rows[..n], document);
      var u, l := UpsertRows(s, rows[..n], document), Load(t, rows[..n]);
      SameConflicts(u.store, l.store, rows[n]);
      SameWrites(u.store, l.store, rows[n], document);
      hide Conflicts, Write, SameButLinks;
    }
  }

  ghost predicate SameButLinks(s: Store, t: Store) {
    && s.models == t.models && s.benchmarks == t.benchmarks && s.harnesses == t.harnesses
    && s.results.Keys == t.results.Keys && forall k | k in s.results :: s.results[k].figures == t.results[k].figures
  }

  lemma SameConflicts(s: Store, t: Store, row: RowIn)
    requires SameButLinks(s, t)
    ensures Conflicts(s, row) <==> Conflicts(t, row)
  {
  }

  lemma SameWrites(s: Store, t: Store, row: RowIn, document: nat)
    requires SameButLinks(s, t)
    ensures SameButLinks(Write(s, row, Some(document)), Write(t, row, None))
  {
    hide RankingCost, ModelAfter, BenchmarkAfter;
  }

  // ---------------------------------------------------------------- ingest_source

  datatype Status = Ingested | Invalid

  datatype Document = Document(id: nat, status: Status)

  datatype Parsed = Parsed(rows: seq<RowIn>, rejected: nat)

  datatype Result =
    | Skipped(id: nat)
    | OverCap
    | ProviderFailed
    | StorageFailed
    | Conflicted
    | Stored(id: nat, status: Status, created: nat, rejected: nat, tokensIn: nat, tokensOut: nat)

  /** What the run leaves in the source table: the row is only flushed until the first upsert
      commits it, so a conflict on the first row takes it back and a later one does not. */
  function DocumentsAfter(documents: map<string, Document>, key: string, id: nat, rows: seq<RowIn>, written: nat):
      map<string, Document>
  {
    if rows == [] then documents[key := Document(id, Invalid)]
    else if written > 0 then documents[key := Document(id, Ingested)]
    else documents
  }

  function ResultOf(id: nat, parsed: Parsed, written: nat, response: Response): Result {
    if written < |parsed.rows| then Conflicted
    else Stored(id, if parsed.rows == [] then Invalid else Ingested, |parsed.rows|, parsed.rejected,
                response.tokensIn, response.tokensOut)
  }

  /** What an answered call leaves behind. The bytes are stored first, outside the database; if that
      fails nothing else is written, so the source can be ingested again, and is paid for again. */
  datatype Landing = Landing(store: Store, documents: map<string, Document>, result: Result)

  function Land(s: Store, documents: map<string, Document>, key: string, id: nat, parsed: Parsed, response: Response,
                blobStored: bool): Landing
  {
    if !blobStored then Landing(s, documents, StorageFailed)
    else
      var u := UpsertRows(s, parsed.rows, id);
      Landing(u.store, DocumentsAfter(documents, key, id, parsed.rows, u.written),
              ResultOf(id, parsed, u.written, response))
  }

  /** What the caller is told of an answered call: an exception if the bytes or a row were not
      stored, and otherwise every row, every rejected one and the answer's own tokens. */
  lemma LandingTells(s: Store, documents: map<string, Document>, key: string, id: nat, parsed: Parsed,
                     response: Response, blobStored: bool)
    ensures var l := Land(s, documents, key, id, parsed, response, blobStored);
            && (l.result == StorageFailed <==> !blobStored)
            && (!blobStored ==> l.store == s && l.documents == documents)
            && (l.result == Conflicted <==> blobStored && !Load(s, parsed.rows).clean)
            && (blobStored && Load(s, parsed.rows).clean ==>
                  && l.result.Stored? && l.result.id == id
                  && l.result.created == |parsed.rows| && l.result.rejected == parsed.rejected
                  && l.result.tokensIn == response.tokensIn && l.result.tokensOut == response.tokensOut
                  && (l.result.status == Ingested <==> parsed.rows != [])
                  && l.documents == documents[key := Document(id, l.result.status)])
            && (forall k | k in l.documents && k != key :: k in documents && l.documents[k] == documents[k])
  {
    WritesLikeTheLoader(s, s, parsed.rows, id);
    hide UpsertRows, Load, SameButLinks;
  }

  /** Exactly one reservation is the caller's, made after the first `base`, and it has ended so. */
  ghost predicate EndsAs(calls: seq<Call>, mine: set<nat>, base: nat, end: Call) {
    exists i | base <= i < |calls| :: mine == {i} && calls[i] == end
  }

  lemma TallyOfOne(usage: LlmUsage, i: nat, r: Completion, hour: Hour, estimate: nat)
    requires usage.Valid() && i < |usage.calls| && usage.calls[i] == Ending(r, hour, estimate)
    ensures forall h :: Tally(usage.tokensUsed, h) ==
                        Tally(usage.start, h) + OthersShare(usage.calls, {i}, h) + Left(r, hour, h)
  {
    forall h
      ensures Tally(usage.tokensUsed, h) == Tally(usage.start, h) + OthersShare(usage.calls, {i}, h) + Left(r, hour, h)
    {
      ShareOfNone(usage.calls, h);
      EndingLeaves(r, hour, estimate, usage.calls, {}, i, h);
      assert {} + {i} == {i};
      TallySplits(usage.start, usage.schedule, {i}, h);
    }
  }

  class Ingestion {
    const usage: LlmUsage
    const catalog: CatalogStore
    var documents: map<string, Document>
    var extractions: seq<Response>   // the llm_call rows

    constructor (usage: LlmUsage, catalog: CatalogStore)
      ensures this.usage == usage && this.catalog == catalog && documents == map[] && extractions == []
    {
      this.usage, this.catalog, documents, extractions := usage, catalog, map[], [];
    }

    /** The state of the tally when the source's call reserves: the other replicas have run. */
    function Met(): State
      reads this, usage
    {
      Interfered(usage.Value(), {}, usage.others(usage.gaps))
    }

    /** On every exit path the one reservation has ended as its call did, whatever the other
        replicas do meanwhile: the hour keeps the tokens of the extraction, and nothing when
        there was none. A known source makes no reservation and touches nothing. */
    method IngestSource(text: string, cap: int, maxTokens: nat, env: CallEnv, id: nat,
                        prompt: string -> Prompt, parse: string -> Parsed, blobStored: bool)
      returns (r: Result, ghost mine: set<nat>)
      requires usage.Valid() && OneGroupPerTask(catalog.Value())
      modifies this, usage, catalog
      ensures usage.Valid() && OneGroupPerTask(catalog.Value())
      ensures var key, estimate := Normalize(text), Estimate(prompt(text), maxTokens);
              var admitted := Tally(old(Met()).table, env.hour) + estimate <= cap;
              var call := Outcome(admitted, env.reply);
              if key in old(documents) then
                && r == Skipped(old(documents)[key].id) && mine == {} && usage.Value() == old(usage.Value())
                && Kept(old(documents), old(extractions), old(catalog.Value()))
              else
                && EndsAs(usage.calls, mine, |old(usage.calls)|, Ending(call, env.hour, estimate))
                && (forall h :: Tally(usage.tokensUsed, h) ==
                                Tally(usage.start, h) + OthersShare(usage.calls, mine, h) + Left(call, env.hour, h))
                && match call
                   case CapExceeded => r == OverCap && Kept(old(documents), old(extractions), old(catalog.Value()))
                   case ProviderRaised => r == ProviderFailed
                     && Kept(old(documents), old(extractions), old(catalog.Value()))
                   case Answered(response) =>
                     && extractions == old(extractions) + [response]
                     && Landing(catalog.Value(), documents, r)
                        == Land(old(catalog.Value()), old(documents), key, id, parse(response.text),
                                response, blobStored)
    {
      hide OneGroupPerTask, Conflicts, Write, Normalize, ApproxTokens, Estimate, UpsertRows, Interfered,
           Exec, AddTo, NonNegative,
           OthersShare, Share, TokensOf, Land, LlmUsage.Valid;
      mine := {};
      var key := Normalize(text);
      if key in documents {
        return Skipped(documents[key].id), {};
      }
      usage.OthersRun({});
      var own := |usage.calls|;
      mine := {own};
      var reservation := usage.ReserveTokens(env.hour, Estimate(prompt(text), maxTokens), cap, {});
      if reservation.None? {
        TallyOfOne(usage, own, CapExceeded, env.hour, Estimate(prompt(text), maxTokens));
        return OverCap, mine;
      }
      usage.OthersRun({own});
      var call := Settle(usage, reservation.value, env.reply);
      TallyOfOne(usage, own, call, env.hour, Estimate(prompt(text), maxTokens));
      if call.ProviderRaised? {
        return ProviderFailed, mine;
      }
      var response := call.response;
      r := StoreExtraction(key, id, response, parse(response.text), blobStored);
    }

    /** After the call: the llm_call row, the bytes, the rows up to the first conflict and the source. */
    method StoreExtraction(key: string, id: nat, response: Response, parsed: Parsed, blobStored: bool)
      returns (r: Result)
      requires OneGroupPerTask(catalog.Value())
      modifies this, catalog
      ensures OneGroupPerTask(catalog.Value())
      ensures extractions == old(extractions) + [response]
      ensures Landing(catalog.Value(), documents, r) ==
              Land(old(catalog.Value()), old(documents), key, id, parsed, response, blobStored)
    {
      hide OneGroupPerTask, UpsertRows;
      extractions := extractions + [response];
      if !blobStored {
        return StorageFailed;
      }
      var written := UpsertAll(parsed.rows, id);
      documents := DocumentsAfter(documents, key, id, parsed.rows, written);
      r := ResultOf(id, parsed, written, response);
    }

    ghost predicate Kept(was: map<string, Document>, extracted: seq<Response>, store: Store)
      reads this, catalog
    {
      documents == was && extractions == extracted && catalog.Value() == store
    }

    method UpsertAll(rows: seq<RowIn>, id: nat) returns (written: nat)
      requires OneGroupPerTask(catalog.Value())
      modifies catalog
      ensures OneGroupPerTask(catalog.Value())
      ensures Upserted(catalog.Value(), written) == UpsertRows(old(catalog.Value()), rows, id)
    {
      hide OneGroupPerTask, Conflicts, Write;
      ghost var start := catalog.Value();
      written := 0;
      while written < |rows|
        invariant written <= |rows| && OneGroupPerTask(catalog.Value())
        invariant Upserted(catalog.Value(), written) == UpsertRows(start, rows[..written], id)
      {
        assert rows[..written + 1][..written] == rows[..written];
        var ok := catalog.UpsertCatalogRow(rows[written], Some(id));
        if !ok {
          UpsertStops(start, rows, written + 1, id);
          return;
        }
        written := written + 1;
      }
      assert rows[..|rows|] == rows;
    }
  }

  /** A source becomes known exactly when it has no rows or its first row is accepted. So every
      source whose rows all landed is known, but one that failed at a later row is known too,
      and the next ingest of it is skipped with its remaining rows unwritten. */
  lemma KnownExactly(documents: map<string, Document>, key: string, id: nat, s: Store, rows: seq<RowIn>)
    requires key !in documents
    ensures var u := UpsertRows(s, rows, id);
            && (key in DocumentsAfter(documents, key, id, rows, u.written) <==> rows == [] || !Conflicts(s, rows[0]))
            && (u.written == |rows| ==> key in DocumentsAfter(documents, key, id, rows, u.written))
            && (key in DocumentsAfter(documents, key, id, rows, u.written) ==>
                  DocumentsAfter(documents, key, id, rows, u.written)[key]
                  == Document(id, if rows == [] then Invalid else Ingested))
  {
    if rows != [] { FirstRowDecides(s, rows, id); }
  }

  /** Two rows that give one task type two benchmarks are enough. */
  lemma SecondRowIsLost(documents: map<string, Document>, key: string, id: nat, a: RowIn, b: RowIn)
    requires key !in documents && Typed(a) && b.taskType == a.taskType && b.benchmark != a.benchmark
    ensures var u := UpsertRows(EMPTY, [a, b], id);
            && u.written == 1 && key in DocumentsAfter(documents, key, id, [a, b], u.written)
            && KeyOf(b) !in u.store.results
  {
    hide RankingCost, ModelAfter, BenchmarkAfter;
    assert [a, b][..1] == [a] && [a][..0] == [];
    assert UpsertRows(EMPTY, [a][..0], id) == Upserted(EMPTY, 0);
    var one := Write(EMPTY, a, Some(id));
    assert UpsertRows(EMPTY, [a], id) == Upserted(one, 1);
    assert KeyOf(a) in one.results && !SameGroup(KeyOf(a), b);
    assert Conflicts(one, b);
  }
}
