/** Laws of whole security scans: which attempts lead to which outcome, what the shared
    ceilings bound, and what the reported usage is made of (agent/security.py). */
module ScanLaws {
  import opened Common
  import opened PyText
  import opened Extraction
  import opened Findings
  import opened SecurityScan

  // ---------------------------------------------------------------- outcomes

  /** The stream of attempt i, under what the earlier attempts left of the ceilings. */
  function StreamAt(cfg: Config, reader: Reader, world: seq<Attempt>, i: nat): StreamResult
    requires i < |world|
  {
    var s := Scanned(cfg, reader, world, i);
    Stream(world[i], Remaining(cfg, s.totals, s.elapsed))
  }

  function VerdictAt(cfg: Config, reader: Reader, world: seq<Attempt>, i: nat): Verdict
    requires i < |world|
  {
    Judge(StreamAt(cfg, reader, world, i), reader)
  }

  /** Every attempt before k was retried: declined or unreadable. */
  ghost predicate RetriedUntil(cfg: Config, reader: Reader, world: seq<Attempt>, k: nat)
    requires k <= |world|
  {
    forall i | 0 <= i < k :: !VerdictAt(cfg, reader, world, i).Stopped?
  }

  function Declines(cfg: Config, reader: Reader, world: seq<Attempt>, k: nat): nat
    requires k <= |world|
  {
    if k == 0 then 0
    else Declines(cfg, reader, world, k - 1) + if VerdictAt(cfg, reader, world, k - 1).Declined? then 1 else 0
  }

  /** While every attempt is retried, the counters tell them apart and the flag remembers the last. */
  lemma {:induction false} WhileRetried(cfg: Config, reader: Reader, world: seq<Attempt>, k: nat)
    requires k <= |world| && RetriedUntil(cfg, reader, world, k)
    ensures var s := Scanned(cfg, reader, world, k);
            && s.stop.None? && s.attempts == k
            && s.refusals == Declines(cfg, reader, world, k) && s.malformed == k - s.refusals
            && (k > 0 ==> (s.refused <==> VerdictAt(cfg, reader, world, k - 1).Declined?))
  {
    hide Stream, Judge, Remaining, Scanned;
    ScannedFirst(cfg, reader, world);
    if k > 0 {
      WhileRetried(cfg, reader, world, k - 1);
      assert !VerdictAt(cfg, reader, world, k - 1).Stopped?;
      ScannedNext(cfg, reader, world, k - 1);
    }
  }

  /** The first attempt that is not retried decides, and nothing after it runs. */
  lemma FirstStopDecides(cfg: Config, reader: Reader, world: seq<Attempt>, k: nat, n: nat)
    requires k < n <= |world| && RetriedUntil(cfg, reader, world, k)
    requires VerdictAt(cfg, reader, world, k).Stopped?
    ensures var s := Scanned(cfg, reader, world, n);
            && s.stop == Some(VerdictAt(cfg, reader, world, k).stop)
            && s.attempts == k + 1 && s.refusals + s.malformed == k
  {
    hide Stream, Judge, Remaining, Scanned, Declines;
    WhileRetried(cfg, reader, world, k);
    ScannedNext(cfg, reader, world, k);
    ScannedStays(cfg, reader, world, k + 1, n);
  }

  /** Either every attempt is retried or there is a first one that is not. */
  lemma {:induction false} FirstStop(cfg: Config, reader: Reader, world: seq<Attempt>, n: nat) returns (k: nat)
    requires n <= |world|
    ensures k <= n && RetriedUntil(cfg, reader, world, k)
    ensures k < n ==> VerdictAt(cfg, reader, world, k).Stopped?
  {
    hide VerdictAt;
    k := 0;
    if n > 0 {
      k := FirstStop(cfg, reader, world, n - 1);
      if k == n - 1 && !VerdictAt(cfg, reader, world, k).Stopped? {
        k := n;
      }
    }
  }

  /** The run could be read to its end, tripped no ceiling, left some text or exited with zero, is
      not worded as a refusal, and its text yields the rows. */
  predicate Delivers(reader: Reader, r: StreamResult, rows: seq<Row>) {
    && !r.raised && r.ceiling.None? && (r.code == 0 || Strip(r.text) != "")
    && !reader.refuses(Strip(r.text)) && reader.findings(Strip(r.text)) == Found(rows)
  }

  lemma DeliversMeans(reader: Reader, r: StreamResult, rows: seq<Row>)
    ensures Judge(r, reader) == Stopped(Got(rows)) <==> Delivers(reader, r, rows)
  {
    hide Strip;
  }

  /** Attempt k delivers the rows after nothing but retries. */
  ghost predicate DeliveredAt(cfg: Config, reader: Reader, world: seq<Attempt>, k: nat, rows: seq<Row>)
    requires k < |world|
  {
    RetriedUntil(cfg, reader, world, k) && Delivers(reader, StreamAt(cfg, reader, world, k), rows)
  }

  /** Attempt k ends the loop, for this reason, after nothing but retries. */
  ghost predicate StoppedAt(cfg: Config, reader: Reader, world: seq<Attempt>, k: nat, stop: Stop)
    requires k < |world|
  {
    RetriedUntil(cfg, reader, world, k) && VerdictAt(cfg, reader, world, k) == Stopped(stop)
  }

  lemma StopsExactly(cfg: Config, reader: Reader, world: seq<Attempt>, n: nat, stop: Stop)
    requires n <= |world|
    ensures Scanned(cfg, reader, world, n).stop == Some(stop) <==>
            exists k | 0 <= k < n :: StoppedAt(cfg, reader, world, k, stop)
  {
    hide VerdictAt, Scanned;
    var k := FirstStop(cfg, reader, world, n);
    if j :| 0 <= j < n && StoppedAt(cfg, reader, world, j, stop) { FirstStopDecides(cfg, reader, world, j, n); }
    if k < n {
      FirstStopDecides(cfg, reader, world, k, n);
      assert StoppedAt(cfg, reader, world, k, VerdictAt(cfg, reader, world, k).stop);
    } else {
      WhileRetried(cfg, reader, world, n);
    }
  }

  /** Only a completed scan yields a result: the loop ends with rows exactly when some attempt
      within the limit delivered them and every earlier one was retried. */
  lemma RowsExactly(cfg: Config, reader: Reader, world: seq<Attempt>, n: nat, rows: seq<Row>)
    requires n <= |world|
    ensures Scanned(cfg, reader, world, n).stop == Some(Got(rows)) <==>
            exists k | 0 <= k < n :: DeliveredAt(cfg, reader, world, k, rows)
  {
    StopsExactly(cfg, reader, world, n, Got(rows));
    hide StreamAt, Judge, Scanned, Delivers, RetriedUntil;
    forall k | 0 <= k < n
      ensures DeliveredAt(cfg, reader, world, k, rows) <==> StoppedAt(cfg, reader, world, k, Got(rows))
    {
      DeliversMeans(reader, StreamAt(cfg, reader, world, k), rows);
    }
  }

  /** The run could be read to its end and tripped no ceiling, but it exited with this code and
      left no text. */
  predicate Dies(r: StreamResult, code: int) {
    !r.raised && r.ceiling.None? && code == r.code && code != 0 && Strip(r.text) == ""
  }

  lemma VerdictMeans(reader: Reader, r: StreamResult, which: Ceiling, code: int)
    ensures Judge(r, reader) == Stopped(AtCeiling(which)) <==> !r.raised && r.ceiling == Some(which)
    ensures Judge(r, reader) == Stopped(Died(code)) <==> Dies(r, code)
    ensures !Judge(r, reader).Stopped? ==> (Judge(r, reader).Declined? <==> reader.refuses(Strip(r.text)))
  {
    hide Strip;
  }

  lemma OutcomeOfStop(setup: Setup, cfg: Config, reader: Reader, world: seq<Attempt>, which: Ceiling, code: int)
    requires |world| >= Max(1, cfg.maxAttempts)
    ensures var outcome := SecurityOutcome(setup, cfg, reader, world);
            var s := Scanned(cfg, reader, world, Max(1, cfg.maxAttempts));
            && (outcome == CeilingExceeded(which) <==> setup.Ready() && s.stop == Some(AtCeiling(which)))
            && (outcome == ProviderError(code) <==> setup.Ready() && s.stop == Some(Died(code)))
            && (outcome.ModelRefused? <==> setup.Ready() && s.stop.None? && s.refused)
            && (outcome.MalformedFindings? <==> setup.Ready() && s.stop.None? && !s.refused)
            && (outcome.ConfigError? <==> !setup.Ready())
  {
    hide Scanned, Kept, Blocks, Readable;
  }

  /** A ceiling is reported exactly when an attempt tripped it after nothing but retries. */
  lemma CeilingExactly(setup: Setup, cfg: Config, reader: Reader, world: seq<Attempt>, which: Ceiling)
    requires |world| >= Max(1, cfg.maxAttempts)
    ensures SecurityOutcome(setup, cfg, reader, world) == CeilingExceeded(which) <==>
            && setup.Ready()
            && exists k | 0 <= k < Max(1, cfg.maxAttempts) ::
                 && RetriedUntil(cfg, reader, world, k) && !StreamAt(cfg, reader, world, k).raised
                 && StreamAt(cfg, reader, world, k).ceiling == Some(which)
  {
    var n := Max(1, cfg.maxAttempts);
    OutcomeOfStop(setup, cfg, reader, world, which, 0);
    StopsExactly(cfg, reader, world, n, AtCeiling(which));
    hide StreamAt, Judge, Scanned, RetriedUntil, SecurityOutcome;
    forall k | 0 <= k < n
      ensures StoppedAt(cfg, reader, world, k, AtCeiling(which)) <==>
              && RetriedUntil(cfg, reader, world, k) && !StreamAt(cfg, reader, world, k).raised
              && StreamAt(cfg, reader, world, k).ceiling == Some(which)
    {
      VerdictMeans(reader, StreamAt(cfg, reader, world, k), which, 0);
    }
  }

  /** A dead provider is reported, with its code, exactly when an attempt died without a word after
      nothing but retries. */
  lemma ProviderErrorExactly(setup: Setup, cfg: Config, reader: Reader, world: seq<Attempt>, code: int)
    requires |world| >= Max(1, cfg.maxAttempts)
    ensures SecurityOutcome(setup, cfg, reader, world) == ProviderError(code) <==>
            && setup.Ready()
            && exists k | 0 <= k < Max(1, cfg.maxAttempts) ::
                 RetriedUntil(cfg, reader, world, k) && Dies(StreamAt(cfg, reader, world, k), code)
  {
    var n := Max(1, cfg.maxAttempts);
    OutcomeOfStop(setup, cfg, reader, world, TokenCeiling, code);
    StopsExactly(cfg, reader, world, n, Died(code));
    hide StreamAt, Judge, Scanned, Dies, RetriedUntil, SecurityOutcome;
    forall k | 0 <= k < n
      ensures StoppedAt(cfg, reader, world, k, Died(code)) <==>
              RetriedUntil(cfg, reader, world, k) && Dies(StreamAt(cfg, reader, world, k), code)
    {
      VerdictMeans(reader, StreamAt(cfg, reader, world, k), TokenCeiling, code);
    }
  }

  /** "Nothing was scanned" comes from retries alone: refused exactly if the wording of the last
      attempt declines, malformed exactly if it does not. */
  lemma NothingScannedExactly(setup: Setup, cfg: Config, reader: Reader, world: seq<Attempt>)
    requires |world| >= Max(1, cfg.maxAttempts)
    ensures var outcome, n := SecurityOutcome(setup, cfg, reader, world), Max(1, cfg.maxAttempts);
            var declines := reader.refuses(Strip(StreamAt(cfg, reader, world, n - 1).text));
            && (outcome.ModelRefused? <==> setup.Ready() && RetriedUntil(cfg, reader, world, n) && declines)
            && (outcome.MalformedFindings? <==> setup.Ready() && RetriedUntil(cfg, reader, world, n) && !declines)
  {
    var n := Max(1, cfg.maxAttempts);
    var k := FirstStop(cfg, reader, world, n);
    OutcomeOfStop(setup, cfg, reader, world, TokenCeiling, 0);
    hide StreamAt, Judge, Scanned, SecurityOutcome, Declines, Strip;
    if k < n {
      FirstStopDecides(cfg, reader, world, k, n);
    } else {
      WhileRetried(cfg, reader, world, n);
      VerdictMeans(reader, StreamAt(cfg, reader, world, n - 1), TokenCeiling, 0);
    }
  }

  /** A completed scan reports the findings kept from the rows that were delivered and the tokens
      in and out of every event read, over all attempts. */
  lemma CompletedExactly(setup: Setup, cfg: Config, reader: Reader, world: seq<Attempt>, run: AgentRun)
    requires |world| >= Max(1, cfg.maxAttempts) && SecurityOutcome(setup, cfg, reader, world) == Completed(run)
    ensures exists k, rows | 0 <= k < Max(1, cfg.maxAttempts) ::
              DeliveredAt(cfg, reader, world, k, rows) && run.findings == Kept(rows, cfg.workspace)
    ensures var all := AllRead(cfg, reader, world, Max(1, cfg.maxAttempts));
            run.tokensIn == Fold(all).input && run.tokensOut == Fold(all).output
    ensures run.gate == Fail <==> exists i | 0 <= i < |run.findings| :: run.findings[i].severity in cfg.failOn
  {
    hide DeliveredAt, Kept, Readable, Scanned, AllRead, Fold;
    var n := Max(1, cfg.maxAttempts);
    var s := Scanned(cfg, reader, world, n);
    RowsExactly(cfg, reader, world, n, s.stop.value.rows);
    TotalsAreOneFold(cfg, reader, world, n);
  }

  /** attempts = refusals + malformed + (1 if the loop stopped early), and without a stop the
      last attempt tells a refusal from unreadable output. */
  lemma {:induction false} Accounting(cfg: Config, reader: Reader, world: seq<Attempt>, n: nat)
    requires 0 < n <= |world|
    ensures var s := Scanned(cfg, reader, world, n);
            && s.attempts == s.refusals + s.malformed + (if s.stop.Some? then 1 else 0)
            && s.attempts <= n && (s.stop.None? ==> s.attempts == n)
            && (s.stop.None? ==> (s.refused <==> VerdictAt(cfg, reader, world, n - 1).Declined?))
  {
    var k := FirstStop(cfg, reader, world, n);
    if k < n { FirstStopDecides(cfg, reader, world, k, n); } else { WhileRetried(cfg, reader, world, n); }
  }

  /** A scan passes the gate exactly when it was set up, some attempt within the limit
      delivered rows after nothing but retries, each of them can be read, and none of the rows
      kept from it blocks. */
  lemma PassExactly(setup: Setup, cfg: Config, reader: Reader, world: seq<Attempt>)
    requires |world| >= Max(1, cfg.maxAttempts)
    ensures var outcome := SecurityOutcome(setup, cfg, reader, world);
            (outcome.Completed? && outcome.run.gate == Pass) <==>
            && setup.Ready()
            && exists k, rows | 0 <= k < Max(1, cfg.maxAttempts) ::
                 && DeliveredAt(cfg, reader, world, k, rows) && Readable(rows)
                 && forall r | 0 <= r < |rows| :: !BlockingRow(rows[r], cfg.workspace, cfg.failOn)
  {
    hide DeliveredAt, BlockingRow, Blocks, Kept, Scanned, Readable;
    var n := Max(1, cfg.maxAttempts);
    var s := Scanned(cfg, reader, world, n);
    if s.stop.Some? && s.stop.value.Got? {
      RowsExactly(cfg, reader, world, n, s.stop.value.rows);
      GateOnRows(s.stop.value.rows, cfg.workspace, cfg.failOn);
    }
    forall k, rows | 0 <= k < n && DeliveredAt(cfg, reader, world, k, rows)
      ensures s.stop == Some(Got(rows))
    {
      RowsExactly(cfg, reader, world, n, rows);
    }
  }

  /** Under the security default, a scan whose rows are delivered and readable fails the gate
      exactly when a row that is kept is an ERROR of HIGH confidence. */
  lemma DefaultGateExactly(setup: Setup, cfg: Config, reader: Reader, world: seq<Attempt>, k: nat, rows: seq<Row>)
    requires |world| >= Max(1, cfg.maxAttempts) && k < Max(1, cfg.maxAttempts) && setup.Ready()
    requires DeliveredAt(cfg, reader, world, k, rows) && Readable(rows) && cfg.failOn == {Critical}
    ensures var outcome := SecurityOutcome(setup, cfg, reader, world);
            && outcome.Completed?
            && (outcome.run.gate == Fail <==>
                exists r | 0 <= r < |rows| :: IsHighError(rows[r]) && ToFinding(rows[r], cfg.workspace).Some?)
  {
    var n := Max(1, cfg.maxAttempts);
    hide DeliveredAt, Kept, Readable, Scanned, ToFinding, Blocks;
    RowsExactly(cfg, reader, world, n, rows);
    GateOnRows(rows, cfg.workspace, {Critical});
    forall r | 0 <= r < |rows|
      ensures BlockingRow(rows[r], cfg.workspace, {Critical}) <==>
              IsHighError(rows[r]) && ToFinding(rows[r], cfg.workspace).Some?
    {
      DefaultBlockingRow(rows[r], cfg.workspace);
    }
    hide BlockingRow, IsHighError;
    assert cfg.failOn == {Critical};
  }

  /** A scan crashes exactly when something raises in its last run, or the rows it delivered hold a
      malformed one. */
  lemma CrashesExactly(setup: Setup, cfg: Config, reader: Reader, world: seq<Attempt>)
    requires |world| >= Max(1, cfg.maxAttempts)
    ensures SecurityOutcome(setup, cfg, reader, world) == Crashed <==>
            && setup.Ready()
            && var stop := Scanned(cfg, reader, world, Max(1, cfg.maxAttempts)).stop;
               stop == Some(Broken) || (stop.Some? && stop.value.Got? && Malformed in stop.value.rows)
  {
    hide Scanned, Kept, Blocks;
  }

  /** One malformed row among those delivered is enough. */
  lemma MalformedRowCrashes(setup: Setup, cfg: Config, reader: Reader, world: seq<Attempt>, k: nat, rows: seq<Row>)
    requires |world| >= Max(1, cfg.maxAttempts) && k < Max(1, cfg.maxAttempts) && setup.Ready()
    requires DeliveredAt(cfg, reader, world, k, rows) && Malformed in rows
    ensures SecurityOutcome(setup, cfg, reader, world) == Crashed
  {
    hide DeliveredAt, Scanned, SecurityOutcome;
    RowsExactly(cfg, reader, world, Max(1, cfg.maxAttempts), rows);
    CrashesExactly(setup, cfg, reader, world);
  }

  /** Whether a message with readable findings counts turns on its wording alone. */
  lemma DeclinedExactly(reader: Reader, r: StreamResult, rows: seq<Row>)
    requires !r.raised && r.ceiling.None? && Strip(r.text) != "" && reader.findings(Strip(r.text)) == Found(rows)
    ensures Judge(r, reader) == if reader.refuses(Strip(r.text)) then Declined else Stopped(Got(rows))
  {
    hide Strip;
  }

  lemma OccursInside(s: string, part: string, a: nat, b: nat, i: nat)
    requires a <= b <= |s| && part != ""
    ensures OccursAt(s[a..b], part, i) <==> a + i + |part| <= b && s[a + i..a + i + |part|] == part
  {
    if i <= b - a { assert s[a..b][i..] == s[a + i..b]; }
    if a + i + |part| <= b { assert s[a + i..b][..|part|] == s[a + i..a + i + |part|]; }
  }

  /** Cutting spaces off both ends of a text makes no difference to words. */
  lemma WordsOccurInside(t: string, part: string, a: nat, b: nat)
    requires a <= b <= |t| && part != "" && !IsSpace(part[0]) && !IsSpace(part[|part| - 1])
    requires forall i | 0 <= i < |t| && (i < a || b <= i) :: IsSpace(t[i])
    ensures (exists i: nat :: OccursAt(t[a..b], part, i)) <==> exists i: nat :: OccursAt(t, part, i)
  {
    hide OccursAt, IsSpace;
    assert t[0..|t|] == t;
    if i: nat :| OccursAt(t[a..b], part, i) {
      OccursInside(t, part, a, b, i);
      OccursInside(t, part, 0, |t|, a + i);
    }
    if i: nat :| OccursAt(t, part, i) {
      OccursInside(t, part, 0, |t|, i);
      var last := i + |part| - 1;
      assert t[i] == part[0] && t[last] == part[|part| - 1];
      OccursInside(t, part, a, b, i - a);
    }
  }

  lemma StrippedWords(text: string, part: string)
    requires part != "" && !IsSpace(part[0]) && !IsSpace(part[|part| - 1])
    ensures Contains(Lower(Strip(text)), part) <==> exists i: nat :: OccursAt(Lower(text), part, i)
  {
    var a, b := StripMeaning(text);
    var t := Lower(text);
    assert Lower(Strip(text)) == t[a..b];
    ContainsMeaning(t[a..b], part);
    hide Strip, Contains, OccursAt, IsSpace;
    forall i | 0 <= i < |t| && (i < a || b <= i) ensures IsSpace(t[i]) { LowerKeepsSpace(text[i]); }
    WordsOccurInside(t, part, a, b);
  }

  lemma LowerKeepsSpace(c: char)
    ensures IsSpace(LowerChar(c)) <==> IsSpace(c)
  {
  }

  lemma MarkersAreWords(m: nat)
    requires m < |REFUSAL_MARKERS|
    ensures var w := REFUSAL_MARKERS[m]; w != "" && !IsSpace(w[0]) && !IsSpace(w[|w| - 1]) && !Contains("", w)
  {
  }

  predicate MarkerAt(text: string, m: nat, i: nat) {
    m < |REFUSAL_MARKERS| && OccursAt(Lower(text), REFUSAL_MARKERS[m], i)
  }

  /** A text is worded as a refusal exactly if one of the phrases occurs somewhere in it, in any
      case. */
  lemma RefusalExactly(text: string)
    ensures LooksLikeRefusal(text) <==> exists m: nat, i: nat :: MarkerAt(text, m, i)
  {
    hide OccursAt, Strip, Lower, Contains, IsSpace;
    forall m: nat | m < |REFUSAL_MARKERS|
      ensures Contains(Lower(Strip(text)), REFUSAL_MARKERS[m]) <==>
              exists i: nat :: OccursAt(Lower(text), REFUSAL_MARKERS[m], i)
    {
      MarkersAreWords(m);
      StrippedWords(text, REFUSAL_MARKERS[m]);
    }
    if LooksLikeRefusal(text) {
      var m: nat :| m < |REFUSAL_MARKERS| && Contains(Lower(Strip(text)), REFUSAL_MARKERS[m]);
      var i: nat :| OccursAt(Lower(text), REFUSAL_MARKERS[m], i);
      assert MarkerAt(text, m, i);
    }
    if m: nat, i: nat :| MarkerAt(text, m, i) {
      assert Contains(Lower(Strip(text)), REFUSAL_MARKERS[m]);
      assert !Contains("", REFUSAL_MARKERS[m]) by { MarkersAreWords(m); }
    }
  }

  function PlainUnits(s: string): (r: seq<JsonText.Unit>)
    ensures |r| == |s| && forall i | 0 <= i < |s| :: r[i] == JsonText.Plain(s[i])
  {
    seq(|s|, i requires 0 <= i < |s| => JsonText.Plain(s[i]))
  }

  lemma {:induction false} PlainUnitsPrint(s: string)
    ensures JsonText.PrintUnits(PlainUnits(s)) == s
  {
    if s != "" {
      PlainUnitsPrint(s[1..]);
      assert PlainUnits(s)[1..] == PlainUnits(s[1..]);
      assert s == [s[0]] + s[1..];
    }
  }

  const NO_FINDINGS := "{\"results\": []}"

  function NoFindings(): JsonText.Json {
    JsonText.Obj("", JsonText.Member("", PlainUnits("results"), "", " ", JsonText.Arr("", JsonText.NoItems), "",
                                     JsonText.NoMembers))
  }

  lemma ResultsKeyIsPrinted()
    ensures JsonText.PrintKey("", PlainUnits("results"), "", " ") == "\"results\": "
  {
    hide PlainUnits, JsonText.PrintUnits;
    PlainUnitsPrint("results");
    assert "\"" + "results" + "\"" == "\"results\"" && "" + ":" + " " == ": ";
  }

  lemma NoFindingsIsPrinted()
    ensures JsonText.Print(NoFindings()) == NO_FINDINGS
  {
    hide PlainUnits, JsonText.PrintUnits, JsonText.PrintKey;
    ResultsKeyIsPrinted();
    var members := NoFindings().members;
    assert JsonText.Print(members.value) == "[]";
    assert JsonText.PrintMembers(members) == "\"results\": " + "[]" + ("" + "") + "";
    assert "\"results\": " + "[]" + ("" + "") + "" == "\"results\": []";
  }

  lemma NoFindingsIsValid()
    ensures NoFindings().Obj? && JsonText.Valid(NoFindings())
  {
    hide PlainUnits;
    assert JsonText.ValidMembers(NoFindings().members);
  }

  lemma WordingIsFound(t: string)
    requires t == "i won't " + NO_FINDINGS
    ensures Strip(t) == t && LooksLikeRefusal(t)
  {
    assert Lower(t) == t;
    assert REFUSAL_MARKERS[12] == "i won't" && REFUSAL_MARKERS[12] <= t;
    assert Contains(t, REFUSAL_MARKERS[12]);
  }

  /** Refusal wording is looked for before results are: a message that carries a readable,
      empty findings object is still declined when its prose reads as a refusal. */
  lemma CleanResultCanBeDeclined(fences: string -> seq<string>, parse: string -> Parsed<seq<Row>>, r: StreamResult)
    requires !r.raised && r.ceiling.None? && r.code == 0
    requires r.text == "i won't " + NO_FINDINGS
    requires fences(r.text) == [] && parse(NO_FINDINGS) == Results([])
    ensures Extracted(Strip(r.text), fences(Strip(r.text)), parse) == Found([])
    ensures Judge(r, AgentReader(fences, parse)) == Declined
  {
    hide Lower, Contains, LooksLikeRefusal, Extracted, Strip, NoFindings;
    WordingIsFound(r.text);
    NoFindingsIsPrinted();
    NoFindingsIsValid();
    ProseThenObject("i won't ", NoFindings(), parse, []);
  }

  /** Prose in front of an object whose text parses to findings. */
  lemma ProseThenObject(prose: string, j: JsonText.Json, parse: string -> Parsed<seq<Row>>, rows: seq<Row>)
    requires forall i | 0 <= i < |prose| :: prose[i] != '"' && prose[i] != '{'
    requires j.Obj? && JsonText.Valid(j) && parse(JsonText.Print(j)) == Results(rows)
    ensures Extracted(prose + JsonText.Print(j), [], parse) == Found(rows)
  {
    JsonText.PlainProseIsQuiet(prose);
    JsonText.PlainProseIsQuiet("");
    assert [prose, ""][1..] == [""] && [j][1..] == [];
    assert JsonText.Weave([""], []) == "";
    hide Extracted, JsonText.Valid, JsonText.Print, JsonText.Quiet;
    assert JsonText.Weave([prose, ""], [j]) == prose + JsonText.Print(j);
    FinalObjectWins([prose, ""], [j], [], parse, rows);
  }

  // ---------------------------------------------------------------- the shared ceilings

  /** What the one event that tripped the token ceiling added (nothing, if none did). */
  function TrippingTokens(r: StreamResult): nat {
    if r.ceiling == Some(TokenCeiling) && r.read != [] then EventTally(r.read[|r.read| - 1].event).Billable() else 0
  }

  lemma UnderLimits(usage: Tally, elapsed: Seconds, limits: Limits)
    requires limits.tokens > 0 && limits.steps > 0 && Trip(usage, elapsed, limits).None?
    ensures usage.Billable() <= limits.tokens && usage.steps <= limits.steps
  {
  }

  lemma OnlyTokensTripOnTokens(usage: Tally, elapsed: Seconds, limits: Limits)
    requires limits.tokens > 0 && Trip(usage, elapsed, limits) != Some(TokenCeiling)
    ensures usage.Billable() <= limits.tokens
  {
  }

  lemma BeforeTheLastEvent(ticks: seq<Tick>, limits: Limits, n: nat)
    requires limits.tokens > 0 && limits.steps > 0
    requires n <= |ticks| && TripAt(ticks, limits, n).None?
    ensures Fold(ticks[..n]).Billable() <= limits.tokens && Fold(ticks[..n]).steps <= limits.steps
  {
    hide Fold, Trip;
    NoTicks(ticks);
    if n > 0 { UnderLimits(Fold(ticks[..n]), ticks[n - 1].elapsed, limits); }
  }

  lemma AfterTheLastEvent(ticks: seq<Tick>, limits: Limits, n: nat)
    requires limits.tokens > 0 && limits.steps > 0
    requires 0 < n <= |ticks| && TripAt(ticks, limits, n - 1).None? && TripAt(ticks, limits, n).Some?
    ensures Fold(ticks[..n]).steps <= limits.steps + 1
    ensures Fold(ticks[..n]).Billable() <= limits.tokens
                                           + if TripAt(ticks, limits, n) == Some(TokenCeiling)
                                             then EventTally(ticks[n - 1].event).Billable() else 0
  {
    BeforeTheLastEvent(ticks, limits, n - 1);
    hide Fold, Trip, TextOf, ToolCalls;
    OneMoreTick(ticks, n - 1);
    if TripAt(ticks, limits, n) != Some(TokenCeiling) {
      OnlyTokensTripOnTokens(Fold(ticks[..n]), ticks[n - 1].elapsed, limits);
    }
  }

  /** One run stays within its limits up to the event that trips them. */
  lemma StreamBound(a: Attempt, limits: Limits)
    requires limits.tokens > 0 && limits.steps > 0
    ensures var r := Stream(a, limits);
            && r.usage.Billable() <= limits.tokens + TrippingTokens(r)
            && r.usage.steps <= limits.steps + (if r.ceiling.Some? then 1 else 0)
  {
    hide Fold, TextOf, ToolCalls, EventsRead, TripAt, EventTally, Tally.Billable;
    var n := EventsRead(a.ticks, limits, 0);
    if TripAt(a.ticks, limits, n).None? {
      BeforeTheLastEvent(a.ticks, limits, n);
    } else {
      TripsOnce(a.ticks, limits);
      AfterTheLastEvent(a.ticks, limits, n);
    }
  }

  lemma TripsOnce(ticks: seq<Tick>, limits: Limits)
    requires TripAt(ticks, limits, EventsRead(ticks, limits, 0)).Some?
    ensures var n := EventsRead(ticks, limits, 0);
            n > 0 && TripAt(ticks, limits, n - 1).None? && ticks[..n] != [] && ticks[..n][n - 1] == ticks[n - 1]
  {
    hide Fold, Trip;
    EventsReadMeaning(ticks, limits, 0);
  }

  /** The tokens the last attempt's tripping event added, if the scan ended at the token ceiling. */
  function Overshoot(cfg: Config, reader: Reader, world: seq<Attempt>, n: nat): nat
    requires n <= |world|
  {
    var k := Scanned(cfg, reader, world, n).attempts;
    if 0 < k <= |world| then TrippingTokens(StreamAt(cfg, reader, world, k - 1)) else 0
  }

  lemma RetriedTripsNothing(cfg: Config, reader: Reader, world: seq<Attempt>, i: nat)
    requires i < |world| && !VerdictAt(cfg, reader, world, i).Stopped?
    ensures StreamAt(cfg, reader, world, i).ceiling.None? && TrippingTokens(StreamAt(cfg, reader, world, i)) == 0
  {
    hide StreamAt, Strip;
  }

  /** Both ceilings, before any attempt has stopped the scan. */
  lemma {:induction false} RetriedBound(cfg: Config, reader: Reader, world: seq<Attempt>, k: nat)
    requires cfg.Valid() && k <= |world| && RetriedUntil(cfg, reader, world, k)
    ensures var t := Scanned(cfg, reader, world, k).totals;
            if k == 0 then t == ZERO
            else t.Billable() <= cfg.tokenCeiling + k - 1 && t.steps <= cfg.maxSteps + k - 1
  {
    hide Scanned, VerdictAt, StreamAt, TrippingTokens;
    ScannedFirst(cfg, reader, world);
    if k > 0 {
      RetriedBound(cfg, reader, world, k - 1);
      WhileRetried(cfg, reader, world, k - 1);
      AttemptBound(cfg, reader, world, k - 1);
      assert !VerdictAt(cfg, reader, world, k - 1).Stopped?;
      RetriedTripsNothing(cfg, reader, world, k - 1);
    }
  }

  lemma AttemptBound(cfg: Config, reader: Reader, world: seq<Attempt>, k: nat)
    requires cfg.Valid() && k < |world| && Scanned(cfg, reader, world, k).stop.None?
    ensures var r := StreamAt(cfg, reader, world, k);
            var t := Scanned(cfg, reader, world, k).totals;
            var t' := Scanned(cfg, reader, world, k + 1).totals;
            && t'.Billable() <= Max(cfg.tokenCeiling, t.Billable() + 1) + TrippingTokens(r)
            && t'.steps <= Max(cfg.maxSteps, t.steps + 1) + (if r.ceiling.Some? then 1 else 0)
  {
    hide Stream, Judge, Scanned, TrippingTokens;
    var s := Scanned(cfg, reader, world, k);
    StreamBound(world[k], Remaining(cfg, s.totals, s.elapsed));
    ScannedNext(cfg, reader, world, k);
  }

  /** Over a whole scan the tokens stay within the ceiling, plus one for each retry, plus what
      the single tripping event added; the steps within theirs plus one per attempt. */
  lemma SharedCeilings(cfg: Config, reader: Reader, world: seq<Attempt>, n: nat)
    requires cfg.Valid() && 0 < n <= |world|
    ensures var s := Scanned(cfg, reader, world, n);
            && s.totals.Billable() <= cfg.tokenCeiling + (s.attempts - 1) + Overshoot(cfg, reader, world, n)
            && s.totals.steps <= cfg.maxSteps + s.attempts
  {
    hide *;
    var k := FirstStop(cfg, reader, world, n);
    if k < n { StoppedBound(cfg, reader, world, k, n); } else { AllRetriedBound(cfg, reader, world, n); }
  }

  lemma AllRetriedBound(cfg: Config, reader: Reader, world: seq<Attempt>, n: nat)
    requires cfg.Valid() && 0 < n <= |world| && RetriedUntil(cfg, reader, world, n)
    ensures var s := Scanned(cfg, reader, world, n);
            && s.totals.Billable() <= cfg.tokenCeiling + (s.attempts - 1) + Overshoot(cfg, reader, world, n)
            && s.totals.steps <= cfg.maxSteps + s.attempts
  {
    hide StreamAt, VerdictAt, Scanned, TrippingTokens, Declines;
    RetriedBound(cfg, reader, world, n);
    WhileRetried(cfg, reader, world, n);
  }

  lemma StoppedBound(cfg: Config, reader: Reader, world: seq<Attempt>, k: nat, n: nat)
    requires cfg.Valid() && k < n <= |world| && RetriedUntil(cfg, reader, world, k)
    requires VerdictAt(cfg, reader, world, k).Stopped?
    ensures var s := Scanned(cfg, reader, world, n);
            && s.totals.Billable() <= cfg.tokenCeiling + (s.attempts - 1) + Overshoot(cfg, reader, world, n)
            && s.totals.steps <= cfg.maxSteps + s.attempts
  {
    hide StreamAt, VerdictAt, Scanned, TrippingTokens, Declines, RetriedUntil;
    StoppingAttemptBound(cfg, reader, world, k);
    WhileRetried(cfg, reader, world, k);
    FirstStopDecides(cfg, reader, world, k, n);
    StopsAfter(cfg, reader, world, k);
    ScannedStays(cfg, reader, world, k + 1, n);
  }

  lemma StoppingAttemptBound(cfg: Config, reader: Reader, world: seq<Attempt>, k: nat)
    requires cfg.Valid() && k < |world| && RetriedUntil(cfg, reader, world, k)
    ensures var t := Scanned(cfg, reader, world, k + 1).totals;
            && t.Billable() <= cfg.tokenCeiling + k + TrippingTokens(StreamAt(cfg, reader, world, k))
            && t.steps <= cfg.maxSteps + k + 1
  {
    hide StreamAt, VerdictAt, Scanned, TrippingTokens, Declines, RetriedUntil;
    RetriedBound(cfg, reader, world, k);
    WhileRetried(cfg, reader, world, k);
    AttemptBound(cfg, reader, world, k);
  }

  lemma StopsAfter(cfg: Config, reader: Reader, world: seq<Attempt>, k: nat)
    requires k < |world| && Scanned(cfg, reader, world, k).stop.None? && VerdictAt(cfg, reader, world, k).Stopped?
    ensures Scanned(cfg, reader, world, k + 1).stop.Some?
  {
    hide Stream, Judge, Remaining, Scanned;
    ScannedNext(cfg, reader, world, k);
  }

  /** A stream trips a counting ceiling only over its whole limit. */
  lemma TripsOverTheLimit(a: Attempt, limits: Limits)
    ensures var r := Stream(a, limits);
            && (r.ceiling == Some(TokenCeiling) ==> r.usage.Billable() > limits.tokens)
            && (r.ceiling == Some(StepCeiling) ==> r.usage.steps > limits.steps)
  {
    hide Fold, TextOf, ToolCalls, HasBadText, EventsRead, Tally.Billable;
  }

  lemma OverWhatIsLeft(cfg: Config, s: Scan, a: Attempt)
    ensures var r := Stream(a, Remaining(cfg, s.totals, s.elapsed));
            && (r.ceiling == Some(TokenCeiling) ==> s.totals.Plus(r.usage).Billable() > cfg.tokenCeiling)
            && (r.ceiling == Some(StepCeiling) ==> s.totals.Plus(r.usage).steps > cfg.maxSteps)
  {
    TripsOverTheLimit(a, Remaining(cfg, s.totals, s.elapsed));
    hide Stream;
  }

  /** A retry gets all that is left: a scan ends at the token or step ceiling only once its whole
      run has really gone over it. */
  lemma {:induction false} CeilingsAreUsedUp(cfg: Config, reader: Reader, world: seq<Attempt>, n: nat)
    requires n <= |world|
    ensures var s := Scanned(cfg, reader, world, n);
            && (s.stop == Some(AtCeiling(TokenCeiling)) ==> s.totals.Billable() > cfg.tokenCeiling)
            && (s.stop == Some(AtCeiling(StepCeiling)) ==> s.totals.steps > cfg.maxSteps)
  {
    hide Stream, Remaining, Scanned, Tally.Plus, Tally.Billable, Strip;
    ScannedFirst(cfg, reader, world);
    if n > 0 {
      CeilingsAreUsedUp(cfg, reader, world, n - 1);
      var s := Scanned(cfg, reader, world, n - 1);
      if s.stop.None? {
        ScannedNext(cfg, reader, world, n - 1);
        OverWhatIsLeft(cfg, s, world[n - 1]);
      } else {
        ScannedStays(cfg, reader, world, n - 1, n);
      }
    }
  }

  /** A run that spends the given tokens in one step and says nothing. */
  function Spending(tokens: nat): Attempt {
    Attempt([Tick(StepFinish(tokens, 0, 0, 0, 0, 0.0), 0.0)], Exited(0), 0.0)
  }

  /** A first run that uses up the whole ceiling, then runs of one token each. */
  function SpendingWorld(ceiling: nat, n: nat): (r: seq<Attempt>)
    ensures |r| == n
    ensures forall i | 0 <= i < n :: r[i] == Spending(if i == 0 then ceiling else 1)
  {
    seq(n, i => Spending(if i == 0 then ceiling else 1))
  }

  lemma WithinLimits(usage: Tally, limits: Limits)
    requires usage.Billable() <= limits.tokens && usage.steps <= limits.steps
    ensures Trip(usage, 0.0, limits).None?
  {
  }

  lemma SpendingFold(ticks: seq<Tick>, tokens: nat)
    requires ticks == Spending(tokens).ticks
    ensures Fold(ticks) == Tally(tokens, 0, 0, 0, 0, 0.0, 1) && TextOf(ticks) == "" && !HasBadText(ticks)
  {
    hide Fold, TextOf, ToolCalls, HasBadText;
    NoTicks(ticks);
    OneMoreTick(ticks, 0);
    assert ticks[..1] == ticks;
    assert ZERO.Plus(EventTally(ticks[0].event)) == Tally(tokens, 0, 0, 0, 0, 0.0, 1);
  }

  lemma SpendingRead(ticks: seq<Tick>, tokens: nat, limits: Limits)
    requires ticks == Spending(tokens).ticks && tokens <= limits.tokens && limits.steps > 0
    ensures EventsRead(ticks, limits, 0) == 1 && TripAt(ticks, limits, 1).None? && ticks[..1] == ticks
  {
    hide Trip, Fold;
    assert ticks[..1] == ticks;
    SpendingFold(ticks, tokens);
    WithinLimits(Fold(ticks), limits);
    assert EventsRead(ticks, limits, 1) == 1;
  }

  lemma SpendingStream(tokens: nat, limits: Limits)
    requires tokens <= limits.tokens && limits.steps > 0
    ensures var r := Stream(Spending(tokens), limits);
            !r.raised && r.ceiling.None? && r.code == 0 && r.text == "" && r.usage == Tally(tokens, 0, 0, 0, 0, 0.0, 1)
  {
    hide TripAt, Fold, TextOf, EventsRead, ToolCalls, HasBadText;
    var ticks := Spending(tokens).ticks;
    SpendingFold(ticks, tokens);
    SpendingRead(ticks, tokens, limits);
  }

  lemma SpendingNext(cfg: Config, reader: Reader, s: Scan, tokens: nat)
    requires !reader.refuses("") && reader.findings("").Nothing? && s.stop.None?
    requires 0 < tokens <= Remaining(cfg, s.totals, s.elapsed).tokens
    ensures var next := NextScan(cfg, reader, s, Spending(tokens));
            && next.stop.None? && next.attempts == s.attempts + 1
            && next.totals.Billable() == s.totals.Billable() + tokens
  {
    hide Stream, Spending;
    SpendingStream(tokens, Remaining(cfg, s.totals, s.elapsed));
    assert Strip("") == "";
  }

  /** The slack of the token bound is real: for every configuration and every number of
      attempts, a model that never answers can make a scan spend all of it. */
  lemma {:induction false} SlackIsReached(cfg: Config, reader: Reader, n: nat, k: nat)
    requires cfg.Valid() && !reader.refuses("") && reader.findings("").Nothing? && 0 < k <= n
    ensures var s := Scanned(cfg, reader, SpendingWorld(cfg.tokenCeiling, n), k);
            s.stop.None? && s.attempts == k && s.totals.Billable() == cfg.tokenCeiling + (k - 1)
  {
    hide NextScan, Scanned, Spending;
    var world := SpendingWorld(cfg.tokenCeiling, n);
    var i := k - 1;
    ScannedFirst(cfg, reader, world);
    if i > 0 { SlackIsReached(cfg, reader, n, i); }
    SpendingNext(cfg, reader, Scanned(cfg, reader, world, i), if i == 0 then cfg.tokenCeiling else 1);
    ScannedNext(cfg, reader, world, i);
  }

  /** A run of so many free steps that says nothing. */
  function Stepping(steps: nat): (a: Attempt)
    ensures |a.ticks| == steps && a.child == Exited(0)
    ensures forall i | 0 <= i < steps :: a.ticks[i] == Tick(StepFinish(0, 0, 0, 0, 0, 0.0), 0.0)
  {
    Attempt(seq(steps, _ => Tick(StepFinish(0, 0, 0, 0, 0, 0.0), 0.0)), Exited(0), 0.0)
  }

  function SteppingTo(maxSteps: nat, n: nat, i: nat): nat {
    (if i == 0 then maxSteps else 1) + if i + 1 == n then 1 else 0
  }

  /** A first run that uses up all steps, then runs of one step; the last takes one too many. */
  function SteppingWorld(maxSteps: nat, n: nat): (r: seq<Attempt>)
    ensures |r| == n
    ensures forall i: nat | i < n :: r[i] == Stepping(SteppingTo(maxSteps, n, i))
  {
    seq(n, i requires 0 <= i < n => Stepping(SteppingTo(maxSteps, n, i)))
  }

  lemma {:induction false} SteppingFold(steps: nat, k: nat)
    requires k <= steps
    ensures Fold(Stepping(steps).ticks[..k]) == Tally(0, 0, 0, 0, 0, 0.0, k)
    ensures TextOf(Stepping(steps).ticks[..k]) == "" && ToolCalls(Stepping(steps).ticks[..k]) == 0
    ensures !HasBadText(Stepping(steps).ticks[..k])
  {
    hide Stepping, Fold, TextOf, ToolCalls, HasBadText;
    var ticks := Stepping(steps).ticks;
    NoTicks(ticks);
    if k > 0 {
      SteppingFold(steps, k - 1);
      OneMoreTick(ticks, k - 1);
    }
  }

  /** Such a run is read whole if it has at most one step too many. */
  lemma {:induction false} SteppingRead(steps: nat, limits: Limits, k: nat)
    requires k <= steps <= limits.steps + 1 && limits.tokens > 0 && limits.steps > 0
    ensures EventsRead(Stepping(steps).ticks, limits, k) == steps
    ensures TripAt(Stepping(steps).ticks, limits, steps) == if steps > limits.steps then Some(StepCeiling) else None
    decreases steps - k
  {
    hide Stepping, Fold, TextOf, ToolCalls;
    SteppingFold(steps, steps);
    if k < steps {
      SteppingFold(steps, k);
      SteppingRead(steps, limits, k + 1);
    }
  }

  lemma SteppingStream(steps: nat, limits: Limits)
    requires steps <= limits.steps + 1 && limits.tokens > 0 && limits.steps > 0
    ensures var r := Stream(Stepping(steps), limits);
            && !r.raised && r.text == "" && r.usage == Tally(0, 0, 0, 0, 0, 0.0, steps)
            && r.ceiling == (if steps > limits.steps then Some(StepCeiling) else None)
            && (r.ceiling.None? ==> r.code == 0)
  {
    hide Stepping, Fold, TextOf, ToolCalls, EventsRead, TripAt, HasBadText;
    SteppingFold(steps, steps);
    SteppingRead(steps, limits, 0);
  }

  lemma SteppingNext(cfg: Config, reader: Reader, s: Scan, steps: nat)
    requires !reader.refuses("") && reader.findings("").Nothing? && s.stop.None?
    requires steps <= Remaining(cfg, s.totals, s.elapsed).steps + 1
    ensures var next := NextScan(cfg, reader, s, Stepping(steps));
            && next.attempts == s.attempts + 1 && next.totals.steps == s.totals.steps + steps
            && next.stop == if steps > Remaining(cfg, s.totals, s.elapsed).steps
                            then Some(AtCeiling(StepCeiling)) else None
  {
    hide Stream, Stepping;
    SteppingStream(steps, Remaining(cfg, s.totals, s.elapsed));
    assert Strip("") == "";
  }

  lemma {:induction false} SteppingSoFar(cfg: Config, reader: Reader, n: nat, k: nat)
    requires cfg.Valid() && !reader.refuses("") && reader.findings("").Nothing? && k < n
    ensures var s := Scanned(cfg, reader, SteppingWorld(cfg.maxSteps, n), k);
            s.attempts == k && s.stop.None? && s.totals.steps == if k == 0 then 0 else cfg.maxSteps + k - 1
  {
    hide NextScan, Scanned, Stepping;
    var world := SteppingWorld(cfg.maxSteps, n);
    ScannedFirst(cfg, reader, world);
    if k > 0 {
      SteppingSoFar(cfg, reader, n, k - 1);
      OneSteppingMore(cfg, reader, n, k - 1);
    }
  }

  lemma OneSteppingMore(cfg: Config, reader: Reader, n: nat, k: nat)
    requires cfg.Valid() && !reader.refuses("") && reader.findings("").Nothing? && k < n
    requires var s := Scanned(cfg, reader, SteppingWorld(cfg.maxSteps, n), k);
             s.stop.None? && s.totals.steps == if k == 0 then 0 else cfg.maxSteps + k - 1
    ensures var world := SteppingWorld(cfg.maxSteps, n);
            var s, next := Scanned(cfg, reader, world, k), Scanned(cfg, reader, world, k + 1);
            && next.attempts == s.attempts + 1 && next.totals.steps == s.totals.steps + SteppingTo(cfg.maxSteps, n, k)
            && next.stop == if k + 1 == n then Some(AtCeiling(StepCeiling)) else None
  {
    hide NextScan, Scanned, Stepping;
    var world := SteppingWorld(cfg.maxSteps, n);
    var s := Scanned(cfg, reader, world, k);
    assert Remaining(cfg, s.totals, s.elapsed).steps == if k == 0 then cfg.maxSteps else 1;
    hide Remaining;
    SteppingNext(cfg, reader, s, SteppingTo(cfg.maxSteps, n, k));
    ScannedNext(cfg, reader, world, k);
  }

  /** So is the slack of the step bound: n attempts can take maxSteps + n steps. */
  lemma StepSlackIsReached(cfg: Config, reader: Reader, n: nat)
    requires cfg.Valid() && !reader.refuses("") && reader.findings("").Nothing? && n > 0
    ensures var s := Scanned(cfg, reader, SteppingWorld(cfg.maxSteps, n), n);
            s.stop == Some(AtCeiling(StepCeiling)) && s.attempts == n && s.totals.steps == cfg.maxSteps + n
  {
    hide Scanned;
    SteppingSoFar(cfg, reader, n, n - 1);
    OneSteppingMore(cfg, reader, n, n - 1);
  }

  /** A run that says one thing and takes one step of nothing but cache reads. */
  function Caching(text: string, cacheRead: nat): Attempt {
    Attempt([Tick(TextEvent(text), 0.0), Tick(StepFinish(0, 0, 0, cacheRead, 0, 0.0), 0.0)], Exited(0), 0.0)
  }

  lemma FoldOfTwo(a: Tick, b: Tick)
    ensures Fold([a]) == EventTally(a.event)
    ensures Fold([a, b]) == EventTally(a.event).Plus(EventTally(b.event))
  {
    assert [a, b][..1] == [a] && [a][..0] == [];
    PlusAssociative(EventTally(a.event), ZERO, ZERO);
    hide Tally.Plus, EventTally;
  }

  lemma TextOfTwo(a: Tick, b: Tick)
    requires a.event.TextEvent? && !b.event.TextEvent?
    ensures TextOf([a, b]) == a.event.text && (HasBadText([a, b]) <==> b.event.BadText?)
  {
    assert [a, b][..1] == [a] && [a][..0] == [];
    assert TextOf([a]) == a.event.text && !HasBadText([a]);
  }

  lemma CachingEvents(a: Event, b: Event, cacheRead: nat)
    requires a.TextEvent? && b == StepFinish(0, 0, 0, cacheRead, 0, 0.0)
    ensures EventTally(a) == ZERO && ZERO.input == ZERO.output == ZERO.steps == 0
    ensures EventTally(b) == Tally(0, 0, 0, cacheRead, 0, 0.0, 1)
  {
  }

  lemma BillableMeaning(t: Tally)
    ensures t.Billable() == t.input + t.output
  {
  }

  lemma CachingFold(a: Tick, b: Tick, cacheRead: nat)
    requires a.event.TextEvent? && b.event == StepFinish(0, 0, 0, cacheRead, 0, 0.0)
    ensures Fold([a]).Billable() == 0 && Fold([a]).steps == 0
    ensures Fold([a, b]) == Tally(0, 0, 0, cacheRead, 0, 0.0, 1) && Fold([a, b]).Billable() == 0
  {
    hide *;
    FoldOfTwo(a, b);
    CachingEvents(a.event, b.event, cacheRead);
    PlusAssociative(EventTally(b.event), ZERO, ZERO);
    BillableMeaning(Fold([a]));
    BillableMeaning(Fold([a, b]));
  }

  lemma CachingTrips(a: Tick, b: Tick, cacheRead: nat, limits: Limits, n: nat)
    requires a.event.TextEvent? && b.event == StepFinish(0, 0, 0, cacheRead, 0, 0.0)
    requires a.elapsed == 0.0 && b.elapsed == 0.0 && limits.tokens > 0 && limits.steps > 0 && n <= 2
    ensures TripAt([a, b], limits, n).None?
  {
    hide Fold, Trip, Tally.Billable, Tally.Plus, EventTally;
    CachingFold(a, b, cacheRead);
    WithinLimits(Fold([a]), limits);
    WithinLimits(Fold([a, b]), limits);
    assert [a, b][..1] == [a] && [a, b][..2] == [a, b];
  }

  lemma CachingRead(a: Tick, b: Tick, cacheRead: nat, limits: Limits)
    requires a.event.TextEvent? && b.event == StepFinish(0, 0, 0, cacheRead, 0, 0.0)
    requires a.elapsed == 0.0 && b.elapsed == 0.0 && limits.tokens > 0 && limits.steps > 0
    ensures EventsRead([a, b], limits, 0) == 2 && TripAt([a, b], limits, 2).None?
    ensures Fold([a, b]) == Tally(0, 0, 0, cacheRead, 0, 0.0, 1)
  {
    hide TripAt, Fold, Tally.Billable, Tally.Plus;
    CachingFold(a, b, cacheRead);
    CachingTrips(a, b, cacheRead, limits, 0);
    CachingTrips(a, b, cacheRead, limits, 1);
    CachingTrips(a, b, cacheRead, limits, 2);
    assert EventsRead([a, b], limits, 2) == 2;
    assert EventsRead([a, b], limits, 1) == 2;
  }

  lemma CachingStream(text: string, cacheRead: nat, limits: Limits)
    requires limits.tokens > 0 && limits.steps > 0
    ensures var r := Stream(Caching(text, cacheRead), limits);
            && !r.raised && r.ceiling.None? && r.code == 0 && r.text == text
            && r.usage == Tally(0, 0, 0, cacheRead, 0, 0.0, 1)
  {
    var a := Caching(text, cacheRead);
    var x, y := a.ticks[0], a.ticks[1];
    assert a.child == Exited(0) && a.ticks == [x, y] && x.event == TextEvent(text) && !y.event.BadText?;
    TextOfTwo(x, y);
    CachingRead(x, y, cacheRead, limits);
    hide Fold, TextOf, ToolCalls, EventsRead, TripAt, HasBadText, Caching;
    assert [x, y][..2] == [x, y];
  }

  /** No ceiling limits cache reads: any message that is delivered can come with any number of
      them, and past the endpoint's bound the run that is posted is refused. */
  lemma CacheReadsAreNotCapped(cfg: Config, reader: Reader, world: seq<Attempt>, text: string, cacheRead: nat,
                               rows: seq<Row>, p: Payload)
    requires cfg.Valid() && world != [] && world[0] == Caching(text, cacheRead)
    requires !reader.refuses(Strip(text)) && reader.findings(Strip(text)) == Found(rows)
    requires p.cacheRead == Some(Scanned(cfg, reader, world, 1).totals.cacheRead)
    ensures var s := Scanned(cfg, reader, world, 1);
            s.stop == Some(Got(rows)) && s.totals == Tally(0, 0, 0, cacheRead, 0, 0.0, 1)
    ensures cacheRead > MAX_TOKENS ==> !RunAccepted(p)
  {
    hide Stream, Strip, Caching, Scanned;
    ScannedFirst(cfg, reader, world);
    ScannedNext(cfg, reader, world, 0);
    CachingStream(text, cacheRead, Remaining(cfg, ZERO, 0.0));
  }

  // ---------------------------------------------------------------- the shared seconds

  /** The time the first k runs took. */
  function Elapsed(world: seq<Attempt>, k: nat): real
    requires k <= |world|
  {
    if k == 0 then 0.0 else Elapsed(world, k - 1) + world[k - 1].elapsed
  }

  /** The clock is never reset: a scan's seconds are those of all the runs it has made. */
  lemma {:induction false} SecondsAddUp(cfg: Config, reader: Reader, world: seq<Attempt>, n: nat)
    requires n <= |world|
    ensures var s := Scanned(cfg, reader, world, n);
            s.attempts <= n && (s.stop.None? ==> s.attempts == n) && s.elapsed == Elapsed(world, s.attempts)
  {
    hide Stream, Judge, Scanned, Remaining, Tally.Plus;
    ScannedFirst(cfg, reader, world);
    if n > 0 {
      SecondsAddUp(cfg, reader, world, n - 1);
      if Scanned(cfg, reader, world, n - 1).stop.None? {
        ScannedNext(cfg, reader, world, n - 1);
      } else {
        ScannedStays(cfg, reader, world, n - 1, n);
      }
    }
  }

  /** By how much a run outlasted what was left of the seconds. */
  function Lateness(cfg: Config, reader: Reader, world: seq<Attempt>, i: nat): real
    requires i < |world|
  {
    var s := Scanned(cfg, reader, world, i);
    MaxReal(0.0, world[i].elapsed - Remaining(cfg, s.totals, s.elapsed).seconds as real)
  }

  function TotalLateness(cfg: Config, reader: Reader, world: seq<Attempt>, n: nat): real
    requires n <= |world|
  {
    if n == 0 then 0.0
    else
      TotalLateness(cfg, reader, world, n - 1)
      + if Scanned(cfg, reader, world, n - 1).stop.None? then Lateness(cfg, reader, world, n - 1) else 0.0
  }

  lemma SecondsAdd(cfg: Config, totals: Tally, elapsed: Seconds, run: Seconds, k: nat, late: real)
    requires cfg.Valid() && late >= 0.0
    requires if k == 0 then elapsed == 0.0 else elapsed <= (cfg.maxSeconds + k - 1) as real + late
    ensures elapsed + run <= (cfg.maxSeconds + k) as real + late
                             + MaxReal(0.0, run - Remaining(cfg, totals, elapsed).seconds as real)
  {
    assert elapsed.Floor as real <= elapsed < elapsed.Floor as real + 1.0;
  }

  /** The seconds are shared like the tokens: over a scan they stay within the limit, plus one for
      each retry, plus what the runs outlasted their own share. */
  lemma {:induction false} SharedSeconds(cfg: Config, reader: Reader, world: seq<Attempt>, n: nat)
    requires cfg.Valid() && n <= |world|
    ensures var s, late := Scanned(cfg, reader, world, n), TotalLateness(cfg, reader, world, n);
            && late >= 0.0 && (s.attempts == 0 ==> s.elapsed == 0.0 && s.stop.None?)
            && (s.attempts > 0 ==> s.elapsed <= (cfg.maxSeconds + s.attempts - 1) as real + late)
  {
    hide Stream, Judge, Scanned, Remaining;
    ScannedFirst(cfg, reader, world);
    if n > 0 {
      SharedSeconds(cfg, reader, world, n - 1);
      var s := Scanned(cfg, reader, world, n - 1);
      if s.stop.None? {
        ScannedNext(cfg, reader, world, n - 1);
        SecondsAdd(cfg, s.totals, s.elapsed, world[n - 1].elapsed, s.attempts,
                   TotalLateness(cfg, reader, world, n - 1));
      } else {
        ScannedStays(cfg, reader, world, n - 1, n);
      }
    }
  }

  /** Every event a run reads but its last one comes within the run's seconds, and the last one
      too unless it trips a ceiling. */
  lemma EventsInTime(a: Attempt, limits: Limits, i: nat)
    requires limits.seconds > 0 && i < |Stream(a, limits).read|
    requires i + 1 < |Stream(a, limits).read| || TripAt(a.ticks, limits, i + 1).None?
    ensures Stream(a, limits).read[i].elapsed <= limits.seconds as real
  {
    hide Fold, TextOf, ToolCalls, HasBadText;
    EventsReadMeaning(a.ticks, limits, 0);
    assert TripAt(a.ticks, limits, i + 1).None?;
  }

  /** The seconds are all handed on too: a scan ends at the wall clock only if its last run was
      still going, or read an event that came after the scan's seconds were over. */
  lemma SecondsAreUsedUp(cfg: Config, reader: Reader, world: seq<Attempt>, n: nat)
    requires n < |world| && Scanned(cfg, reader, world, n).stop.None?
    requires Scanned(cfg, reader, world, n + 1).stop == Some(AtCeiling(WallClockCeiling))
    ensures world[n].child.StillRunning?
            || exists i | 0 <= i < |world[n].ticks| ::
                 Scanned(cfg, reader, world, n).elapsed + world[n].ticks[i].elapsed > cfg.maxSeconds as real
  {
    var s := Scanned(cfg, reader, world, n);
    var limits := Remaining(cfg, s.totals, s.elapsed);
    LateEvent(world[n], limits);
    assert s.elapsed.Floor as real <= s.elapsed;
    hide Stream, Scanned, Strip;
    ScannedNext(cfg, reader, world, n);
  }

  lemma LateEvent(a: Attempt, limits: Limits)
    ensures Stream(a, limits).ceiling == Some(WallClockCeiling) && !a.child.StillRunning? ==>
              exists i | 0 <= i < |a.ticks| :: a.ticks[i].elapsed > limits.seconds as real
  {
    hide Fold, TextOf, ToolCalls, HasBadText, EventsRead;
    var n := EventsRead(a.ticks, limits, 0);
    if n > 0 && TripAt(a.ticks, limits, n) == Some(WallClockCeiling) {
      assert a.ticks[n - 1].elapsed > limits.seconds as real;
    }
  }

  /** But between events nobody looks at the clock: a run that is silent for any time t and then
      exits trips no ceiling, so the lateness has no bound. */
  lemma SilenceIsNotTimed(cfg: Config, reader: Reader, world: seq<Attempt>, t: Seconds)
    requires cfg.Valid() && world != [] && world[0] == Attempt([], Exited(0), t)
    ensures var s := Scanned(cfg, reader, world, 1);
            && (s.stop.Some? ==> !s.stop.value.AtCeiling?)
            && s.elapsed == t && TotalLateness(cfg, reader, world, 1) == MaxReal(0.0, t - cfg.maxSeconds as real)
  {
    ScannedFirst(cfg, reader, world);
    ScannedNext(cfg, reader, world, 0);
    assert Stream(world[0], Remaining(cfg, ZERO, 0.0)).ceiling.None?;
    assert TotalLateness(cfg, reader, world, 0) == 0.0;
    hide Stream, Strip, Scanned;
  }

  // ---------------------------------------------------------------- what usage is made of

  lemma PlusAssociative(a: Tally, b: Tally, c: Tally)
    ensures a.Plus(b).Plus(c) == a.Plus(b.Plus(c)) && a.Plus(ZERO) == a && ZERO.Plus(a) == a
  {
  }

  lemma LoneTick(t: Tick)
    ensures Fold([t]) == EventTally(t.event)
    ensures TextOf([t]) == if t.event.TextEvent? then t.event.text else ""
    ensures ToolCalls([t]) == if t.event.ToolUse? then 1 else 0
  {
    hide *;
    var ticks := [t];
    assert ticks[..0 + 1] == ticks && ticks[0] == t;
    NoTicks(ticks);
    OneMoreTick(ticks, 0);
    PlusAssociative(EventTally(t.event), ZERO, ZERO);
  }

  /** What one event stands for: a finished step its own six figures, anything else nothing. */
  lemma FoldOfOne(t: Tick)
    ensures t.event.StepFinish? ==>
              var u, e := Fold([t]), t.event;
              && u.input == e.input && u.output == e.output && u.total == e.total && u.steps == 1
              && u.cacheRead == e.cacheRead && u.cacheWrite == e.cacheWrite && u.cost == e.cost
    ensures !t.event.StepFinish? ==> Fold([t]) == Tally(0, 0, 0, 0, 0, 0.0, 0)
    ensures TextOf([t]) == if t.event.TextEvent? then t.event.text else ""
    ensures ToolCalls([t]) == if t.event.ToolUse? then 1 else 0
  {
    LoneTick(t);
    hide Fold, TextOf, ToolCalls;
  }

  /** Folding events is a homomorphism: it does not matter where a stream is split. */
  lemma {:induction false} FoldConcat(a: seq<Tick>, b: seq<Tick>)
    ensures Fold(a + b) == Fold(a).Plus(Fold(b))
    ensures TextOf(a + b) == TextOf(a) + TextOf(b) && ToolCalls(a + b) == ToolCalls(a) + ToolCalls(b)
  {
    hide EventTally, Tally.Plus;
    PlusAssociative(Fold(a), ZERO, ZERO);
    if b == [] {
      assert a + b == a;
    } else {
      var n := |b| - 1;
      FoldConcat(a, b[..n]);
      assert (a + b)[..|a + b| - 1] == a + b[..n];
      PlusAssociative(Fold(a), Fold(b[..n]), EventTally(b[n].event));
    }
  }

  /** The events read over the first n attempts, one stream after another. */
  function AllRead(cfg: Config, reader: Reader, world: seq<Attempt>, n: nat): seq<Tick>
    requires n <= |world|
  {
    if n == 0 then []
    else
      AllRead(cfg, reader, world, n - 1)
      + if Scanned(cfg, reader, world, n - 1).stop.None? then StreamAt(cfg, reader, world, n - 1).read else []
  }

  /** What a scan reports is one fold over all the events read, across attempts. */
  lemma {:induction false} TotalsAreOneFold(cfg: Config, reader: Reader, world: seq<Attempt>, n: nat)
    requires n <= |world|
    ensures Scanned(cfg, reader, world, n).totals == Fold(AllRead(cfg, reader, world, n))
    ensures Scanned(cfg, reader, world, n).toolCalls == ToolCalls(AllRead(cfg, reader, world, n))
  {
    hide Judge, Remaining, EventsRead, TripAt, TextOf, ToolCalls, Scanned, Fold, Tally.Plus;
    ScannedFirst(cfg, reader, world);
    NoTicks([]);
    if n > 0 {
      TotalsAreOneFold(cfg, reader, world, n - 1);
      var s := Scanned(cfg, reader, world, n - 1);
      if s.stop.None? {
        FoldConcat(AllRead(cfg, reader, world, n - 1), StreamAt(cfg, reader, world, n - 1).read);
        ScannedNext(cfg, reader, world, n - 1);
      } else {
        ScannedStays(cfg, reader, world, n - 1, n);
        assert AllRead(cfg, reader, world, n) == AllRead(cfg, reader, world, n - 1);
      }
    }
  }

  // ---------------------------------------------------------------- what usage does not depend on

  function EraseTally(t: Tally): Tally { t.(total := 0, cacheRead := 0, cacheWrite := 0, cost := 0.0) }

  /** An event with the fields that are only reported for the record set to zero. */
  function EraseTick(t: Tick): Tick {
    match t.event
    case StepFinish(i, o, _, _, _, _) => t.(event := StepFinish(i, o, 0, 0, 0, 0.0))
    case _ => t
  }

  function EraseTicks(ticks: seq<Tick>): (r: seq<Tick>)
    ensures |r| == |ticks|
    ensures forall i | 0 <= i < |r| :: r[i] == EraseTick(ticks[i])
  {
    seq(|ticks|, i requires 0 <= i < |ticks| => EraseTick(ticks[i]))
  }

  function EraseWorld(world: seq<Attempt>): (r: seq<Attempt>)
    ensures |r| == |world|
    ensures forall i | 0 <= i < |r| :: r[i] == world[i].(ticks := EraseTicks(world[i].ticks))
  {
    seq(|world|, i requires 0 <= i < |world| => world[i].(ticks := EraseTicks(world[i].ticks)))
  }

  lemma {:induction false} EraseFold(ticks: seq<Tick>)
    ensures Fold(EraseTicks(ticks)) == EraseTally(Fold(ticks))
    ensures TextOf(EraseTicks(ticks)) == TextOf(ticks)
    ensures ToolCalls(EraseTicks(ticks)) == ToolCalls(ticks)
    ensures HasBadText(EraseTicks(ticks)) == HasBadText(ticks)
  {
    if ticks != [] {
      var n := |ticks| - 1;
      EraseFold(ticks[..n]);
      assert EraseTicks(ticks)[..n] == EraseTicks(ticks[..n]);
      assert ticks[..n + 1] == ticks && EraseTicks(ticks)[..n + 1] == EraseTicks(ticks);
      OneMoreTick(ticks, n);
      OneMoreTick(EraseTicks(ticks), n);
    }
  }

  lemma EraseTrip(ticks: seq<Tick>, limits: Limits, n: nat)
    requires n <= |ticks|
    ensures TripAt(EraseTicks(ticks), limits, n) == TripAt(ticks, limits, n)
  {
    EraseFold(ticks[..n]);
    assert EraseTicks(ticks)[..n] == EraseTicks(ticks[..n]);
  }

  lemma {:induction false} EraseEventsRead(ticks: seq<Tick>, limits: Limits, n: nat)
    requires n <= |ticks|
    ensures EventsRead(EraseTicks(ticks), limits, n) == EventsRead(ticks, limits, n)
    decreases |ticks| - n
  {
    hide TripAt;
    EraseTrip(ticks, limits, n);
    if n < |ticks| { EraseEventsRead(ticks, limits, n + 1); }
  }

  lemma EraseStream(a: Attempt, limits: Limits)
    ensures var r, e := Stream(a, limits), Stream(a.(ticks := EraseTicks(a.ticks)), limits);
            && e.code == r.code && e.raised == r.raised && e.ceiling == r.ceiling
            && e.text == r.text && e.toolCalls == r.toolCalls
            && e.usage == EraseTally(r.usage)
  {
    hide TripAt, Fold, TextOf, ToolCalls, HasBadText;
    var n := EventsRead(a.ticks, limits, 0);
    EraseEventsRead(a.ticks, limits, 0);
    EraseTrip(a.ticks, limits, n);
    EraseFold(a.ticks[..n]);
    assert EraseTicks(a.ticks)[..n] == EraseTicks(a.ticks[..n]);
  }

  lemma EraseNext(cfg: Config, reader: Reader, s: Scan, a: Attempt)
    ensures var next := NextScan(cfg, reader, s, a);
            NextScan(cfg, reader, s.(totals := EraseTally(s.totals)), a.(ticks := EraseTicks(a.ticks)))
            == next.(totals := EraseTally(next.totals))
  {
    hide Stream, Strip;
    EraseStream(a, Remaining(cfg, s.totals, s.elapsed));
  }

  /** Cache reads and writes, `total` and the provider's cost change nothing a scan decides or
      bills: attempts, ceilings, refusals, rows and the reported tokens are the same without them. */
  lemma {:induction false} CacheFieldsDoNotMatter(cfg: Config, reader: Reader, world: seq<Attempt>, n: nat)
    requires n <= |world|
    ensures var s := Scanned(cfg, reader, world, n);
            Scanned(cfg, reader, EraseWorld(world), n) == s.(totals := EraseTally(s.totals))
  {
    hide NextScan, Scanned;
    ScannedFirst(cfg, reader, world);
    ScannedFirst(cfg, reader, EraseWorld(world));
    if n > 0 {
      CacheFieldsDoNotMatter(cfg, reader, world, n - 1);
      var s := Scanned(cfg, reader, world, n - 1);
      if s.stop.None? {
        EraseNext(cfg, reader, s, world[n - 1]);
        ScannedNext(cfg, reader, world, n - 1);
        ScannedNext(cfg, reader, EraseWorld(world), n - 1);
      } else {
        ScannedStays(cfg, reader, world, n - 1, n);
        ScannedStays(cfg, reader, EraseWorld(world), n - 1, n);
      }
    }
  }
}
