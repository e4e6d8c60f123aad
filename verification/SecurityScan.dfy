/** The security task of the CI agent: the event stream under three ceilings, the retry loop
    that shares them, and the classification of the outcome (agent/security.py,
    agent/errors.py). */
module SecurityScan {
  import opened Common
  import opened PyText
  import opened Extraction
  import opened Findings

  // ---------------------------------------------------------------- usage

  type Seconds = s: real | s >= 0.0 witness 0.0

  datatype Tally = Tally(input: nat, output: nat, total: nat, cacheRead: nat, cacheWrite: nat, cost: real, steps: nat) {
    /** What the ceilings and the reported run count. */
    function Billable(): nat { input + output }

    function Plus(t: Tally): Tally {
      Tally(input + t.input, output + t.output, total + t.total, cacheRead + t.cacheRead,
            cacheWrite + t.cacheWrite, cost + t.cost, steps + t.steps)
    }
  }

  const ZERO := Tally(0, 0, 0, 0, 0, 0.0, 0)

  datatype Event =
    | TextEvent(text: string)
    | BadText                      // a text that is no string: joining the texts raises
    | ToolUse
    | StepFinish(input: nat, output: nat, total: nat, cacheRead: nat, cacheWrite: nat, cost: real)
    | OtherEvent

  function EventTally(e: Event): Tally {
    match e
    case StepFinish(i, o, t, r, w, c) => Tally(i, o, t, r, w, c, 1)
    case _ => ZERO
  }

  class Usage {
    var input: nat
    var output: nat
    var total: nat
    var cacheRead: nat
    var cacheWrite: nat
    var cost: real
    var steps: nat

    function Value(): Tally
      reads this
    {
      Tally(input, output, total, cacheRead, cacheWrite, cost, steps)
    }

    constructor ()
      ensures Value() == ZERO
    {
      input, output, total, cacheRead, cacheWrite, cost, steps := 0, 0, 0, 0, 0, 0.0, 0;
    }

    /** What one event adds. */
    method Record(e: Event)
      modifies this
      ensures Value() == old(Value()).Plus(EventTally(e))
    {
      if e.StepFinish? {
        steps := steps + 1;
        cost := cost + e.cost;
        input := input + e.input;
        output := output + e.output;
        total := total + e.total;
        cacheRead := cacheRead + e.cacheRead;
        cacheWrite := cacheWrite + e.cacheWrite;
      }
    }

    method Add(other: Usage)
      modifies this
      ensures Value() == old(Value()).Plus(old(other.Value()))
    {
      var t := other.Value();
      input := input + t.input;
      output := output + t.output;
      total := total + t.total;
      cacheRead := cacheRead + t.cacheRead;
      cacheWrite := cacheWrite + t.cacheWrite;
      cost := cost + t.cost;
      steps := steps + t.steps;
    }
  }

  // ---------------------------------------------------------------- the event stream

  /** An event and the seconds elapsed when the ceilings are checked after it. */
  datatype Tick = Tick(event: Event, elapsed: Seconds)

  /** What follows the events: the child exits, is waited for in vain, or has printed a line that
      makes reading it raise: JSON without the shape of an event, or more than the parser takes. */
  datatype Child = Exited(code: int) | StillRunning | Garbled

  /** How one run of the agentic loop would go if nothing stopped it. */
  datatype Attempt = Attempt(ticks: seq<Tick>, child: Child, elapsed: Seconds)

  datatype Limits = Limits(seconds: nat, tokens: nat, steps: nat)

  datatype Ceiling = TokenCeiling | StepCeiling | WallClockCeiling

  function Fold(ticks: seq<Tick>): Tally {
    if ticks == [] then ZERO
    else Fold(ticks[..|ticks| - 1]).Plus(EventTally(ticks[|ticks| - 1].event))
  }

  function TextOf(ticks: seq<Tick>): string {
    if ticks == [] then ""
    else
      TextOf(ticks[..|ticks| - 1])
      + if ticks[|ticks| - 1].event.TextEvent? then ticks[|ticks| - 1].event.text else ""
  }

  predicate HasBadText(ticks: seq<Tick>) {
    ticks != [] && (HasBadText(ticks[..|ticks| - 1]) || ticks[|ticks| - 1].event.BadText?)
  }

  function ToolCalls(ticks: seq<Tick>): nat {
    if ticks == [] then 0
    else ToolCalls(ticks[..|ticks| - 1]) + if ticks[|ticks| - 1].event.ToolUse? then 1 else 0
  }

  lemma NoTicks(ticks: seq<Tick>)
    ensures Fold(ticks[..0]) == ZERO && TextOf(ticks[..0]) == "" && ToolCalls(ticks[..0]) == 0
    ensures !HasBadText(ticks[..0])
  {
  }

  lemma OneMoreTick(ticks: seq<Tick>, n: nat)
    requires n < |ticks|
    ensures Fold(ticks[..n + 1]) == Fold(ticks[..n]).Plus(EventTally(ticks[n].event))
    ensures TextOf(ticks[..n + 1]) ==
            TextOf(ticks[..n]) + if ticks[n].event.TextEvent? then ticks[n].event.text else ""
    ensures ToolCalls(ticks[..n + 1]) == ToolCalls(ticks[..n]) + if ticks[n].event.ToolUse? then 1 else 0
    ensures HasBadText(ticks[..n + 1]) == (HasBadText(ticks[..n]) || ticks[n].event.BadText?)
  {
    assert ticks[..n + 1][..n] == ticks[..n];
  }

  /** The first ceiling, in the order they are checked, that a running total is over. A limit
      of zero is no limit. */
  function Trip(usage: Tally, elapsed: Seconds, limits: Limits): Option<Ceiling> {
    if limits.tokens > 0 && usage.Billable() > limits.tokens then Some(TokenCeiling)
    else if limits.steps > 0 && usage.steps > limits.steps then Some(StepCeiling)
    else if limits.seconds > 0 && elapsed > limits.seconds as real then Some(WallClockCeiling)
    else None
  }

  /** The ceiling exceeded after the first n events, if any. */
  function TripAt(ticks: seq<Tick>, limits: Limits, n: nat): Option<Ceiling>
    requires n <= |ticks|
  {
    if n == 0 then None else Trip(Fold(ticks[..n]), ticks[n - 1].elapsed, limits)
  }

  /** How many events are read, once n have been. */
  function EventsRead(ticks: seq<Tick>, limits: Limits, n: nat): (r: nat)
    requires n <= |ticks|
    ensures n <= r <= |ticks|
    decreases |ticks| - n
  {
    if n == |ticks| || TripAt(ticks, limits, n).Some? then n else EventsRead(ticks, limits, n + 1)
  }

  /** Reading stops at the first event after which a ceiling is exceeded, and only there. */
  lemma {:induction false} EventsReadMeaning(ticks: seq<Tick>, limits: Limits, n: nat)
    requires n <= |ticks|
    ensures forall k | n <= k < EventsRead(ticks, limits, n) :: TripAt(ticks, limits, k).None?
    ensures EventsRead(ticks, limits, n) < |ticks| ==> TripAt(ticks, limits, EventsRead(ticks, limits, n)).Some?
    decreases |ticks| - n
  {
    if n < |ticks| && TripAt(ticks, limits, n).None? { EventsReadMeaning(ticks, limits, n + 1); }
  }

  datatype StreamResult = StreamResult(code: int, usage: Tally, text: string, ceiling: Option<Ceiling>,
                                       read: seq<Tick>, toolCalls: nat, raised: bool)

  function Stream(a: Attempt, limits: Limits): StreamResult {
    var n := EventsRead(a.ticks, limits, 0);
    var read := a.ticks[..n];
    var trip := TripAt(a.ticks, limits, n);
    var ceiling :=
      if trip.Some? then trip
      else if a.child.StillRunning? then Some(WallClockCeiling)
      else None;
    var garbled := ceiling.None? && a.child.Garbled?;
    var code := if ceiling.Some? then 124 else if garbled then 0 else a.child.code;
    StreamResult(code, Fold(read), TextOf(read), ceiling, read, ToolCalls(read), garbled || HasBadText(read))
  }

  method CheckCeilings(usage: Usage, elapsed: Seconds, limits: Limits) returns (tripped: Option<Ceiling>)
    ensures tripped == Trip(usage.Value(), elapsed, limits)
    ensures var overTokens := limits.tokens != 0 && usage.input + usage.output > limits.tokens;
            var overSteps := limits.steps != 0 && usage.steps > limits.steps;
            var overTime := limits.seconds != 0 && elapsed > limits.seconds as real;
            && (tripped == Some(TokenCeiling) <==> overTokens)
            && (tripped == Some(StepCeiling) <==> overSteps && !overTokens)
            && (tripped == Some(WallClockCeiling) <==> overTime && !overSteps && !overTokens)
  {
    if limits.tokens > 0 && usage.input + usage.output > limits.tokens {
      return Some(TokenCeiling);
    }
    if limits.steps > 0 && usage.steps > limits.steps {
      return Some(StepCeiling);
    }
    if limits.seconds > 0 && elapsed > limits.seconds as real {
      return Some(WallClockCeiling);
    }
    return None;
  }

  /** The streaming loop: it stops at the first event after which a ceiling is exceeded. */
  method ReadEvents(ticks: seq<Tick>, limits: Limits, usage: Usage)
    returns (n: nat, text: string, joins: bool, toolCalls: nat, tripped: Option<Ceiling>)
    requires usage.Value() == ZERO
    modifies usage
    ensures n == EventsRead(ticks, limits, 0)
    ensures usage.Value() == Fold(ticks[..n]) && text == TextOf(ticks[..n]) && toolCalls == ToolCalls(ticks[..n])
    ensures tripped == TripAt(ticks, limits, n) && joins == !HasBadText(ticks[..n])
  {
    hide Trip, Fold, TextOf, ToolCalls, HasBadText;
    n, text, joins, toolCalls, tripped := 0, "", true, 0, None;
    NoTicks(ticks);
    while n < |ticks| && tripped.None?
      invariant 0 <= n <= |ticks|
      invariant usage.Value() == Fold(ticks[..n])
      invariant text == TextOf(ticks[..n]) && joins == !HasBadText(ticks[..n])
      invariant toolCalls == ToolCalls(ticks[..n])
      invariant tripped == TripAt(ticks, limits, n)
      invariant EventsRead(ticks, limits, 0) == EventsRead(ticks, limits, n)
      decreases |ticks| - n
    {
      var tick := ticks[n];
      OneMoreTick(ticks, n);
      n := n + 1;
      if tick.event.TextEvent? {
        text := text + tick.event.text;
      } else if tick.event.BadText? {
        joins := false;
      } else if tick.event.ToolUse? {
        toolCalls := toolCalls + 1;
      }
      usage.Record(tick.event);
      tripped := CheckCeilings(usage, tick.elapsed, limits);
    }
  }

  method StreamOpencode(a: Attempt, limits: Limits) returns (result: StreamResult, usage: Usage)
    ensures result == Stream(a, limits)
    ensures result.read <= a.ticks && result.text == TextOf(result.read) && result.toolCalls == ToolCalls(result.read)
    ensures result.ceiling.Some? ==> result.code == 124
    ensures result.ceiling.None? ==>
              result.read == a.ticks && !a.child.StillRunning? && (a.child.Exited? ==> result.code == a.child.code)
    ensures result.raised <==> HasBadText(result.read) || (result.ceiling.None? && a.child.Garbled?)
    ensures fresh(usage) && usage.Value() == result.usage
  {
    usage := new Usage();
    var n, text, joins, toolCalls, tripped := ReadEvents(a.ticks, limits, usage);
    var code, raised := 0, !joins;
    if tripped.Some? {
      code := 124;
    } else {
      match a.child {
        case Garbled => raised := true;
        case Exited(c) => code := c;
        case StillRunning =>
          tripped := Some(WallClockCeiling);
          code := 124;
      }
    }
    result := StreamResult(code, usage.Value(), text, tripped, a.ticks[..n], toolCalls, raised);
    EventsReadMeaning(a.ticks, limits, 0);
  }

  // ---------------------------------------------------------------- refusals

  const REFUSAL_MARKERS := [
    "cannot fulfill", "can't fulfill", "unable to perform", "i cannot perform",
    "i'm unable to", "i am unable to", "cannot assist", "can't assist",
    "i cannot help", "i can't help", "cannot comply", "can't comply",
    "i won't", "i will not", "not able to assist"]

  predicate LooksLikeRefusal(text: string) {
    var t := Lower(Strip(text));
    t != "" && exists i | 0 <= i < |REFUSAL_MARKERS| :: Contains(t, REFUSAL_MARKERS[i])
  }

  // ---------------------------------------------------------------- the retry loop

  datatype Config = Config(maxAttempts: int, maxSeconds: nat, maxSteps: nat, tokenCeiling: nat,
                           failOn: set<Severity>, workspace: string) {
    /** The bounds the agent's configuration puts on its own fields. */
    predicate Valid() {
      maxAttempts >= 1 && maxSeconds >= 1 && maxSteps >= 1 && tokenCeiling >= 1
    }
  }

  /** How a final text is read: the refusal test and the extraction. */
  datatype Reader = Reader(refuses: string -> bool, findings: string -> Read<seq<Row>>)

  /** The agent's own reader, given the two library steps of extraction: the fence expression
      and the JSON parser. */
  function AgentReader(fences: string -> seq<string>, parse: string -> Parsed<seq<Row>>): Reader {
    Reader(LooksLikeRefusal, text => Extracted(text, fences(text), parse))
  }

  datatype Stop = Broken | AtCeiling(which: Ceiling) | Died(code: int) | Got(rows: seq<Row>)

  /** The retry loop's variables between two attempts. */
  datatype Scan = Scan(attempts: nat, refusals: nat, malformed: nat, totals: Tally, elapsed: Seconds,
                       toolCalls: nat, refused: bool, stop: Option<Stop>)

  const FRESH := Scan(0, 0, 0, ZERO, 0.0, 0, false, None)

  /** What is left of the shared ceilings: never less than one. */
  function Remaining(cfg: Config, totals: Tally, elapsed: Seconds): Limits {
    Limits(Max(1, cfg.maxSeconds - elapsed.Floor),
           Max(1, cfg.tokenCeiling - totals.Billable()),
           Max(1, cfg.maxSteps - totals.steps))
  }

  datatype Verdict = Stopped(stop: Stop) | Declined | Unreadable

  /** How one attempt ends: an unreadable stream raises; then ceiling first, then a dead provider,
      then refusal wording, and only then extraction. */
  function Judge(r: StreamResult, reader: Reader): Verdict {
    var text := Strip(r.text);
    if r.raised then Stopped(Broken)
    else if r.ceiling.Some? then Stopped(AtCeiling(r.ceiling.value))
    else if r.code != 0 && text == "" then Stopped(Died(r.code))
    else if reader.refuses(text) then Declined
    else
      match reader.findings(text)
      case Found(rows) => Stopped(Got(rows))
      case Raised => Stopped(Broken)
      case Nothing => Unreadable
  }

  function NextScan(cfg: Config, reader: Reader, s: Scan, a: Attempt): Scan {
    var r := Stream(a, Remaining(cfg, s.totals, s.elapsed));
    var s' := s.(attempts := s.attempts + 1, totals := s.totals.Plus(r.usage),
                 elapsed := s.elapsed + a.elapsed, toolCalls := s.toolCalls + r.toolCalls);
    match Judge(r, reader)
    case Stopped(stop) => s'.(stop := Some(stop), refused := if stop.Got? then false else s.refused)
    case Declined => s'.(refused := true, refusals := s.refusals + 1)
    case Unreadable => s'.(refused := false, malformed := s.malformed + 1)
  }

  /** The loop after at most n attempts; it stays where it stopped. */
  function Scanned(cfg: Config, reader: Reader, world: seq<Attempt>, n: nat): Scan
    requires n <= |world|
  {
    if n == 0 then FRESH
    else
      var s := Scanned(cfg, reader, world, n - 1);
      if s.stop.Some? then s else NextScan(cfg, reader, s, world[n - 1])
  }

  datatype AgentRun = AgentRun(findings: seq<Finding>, tokensIn: nat, tokensOut: nat, gate: Gate)

  datatype Outcome =
    | ConfigError
    | ProviderError(code: int)
    | CeilingExceeded(which: Ceiling)
    | ModelRefused
    | MalformedFindings
    | Completed(run: AgentRun)
    | Crashed                      // an exception of no class of its own

  function OutcomeOf(cfg: Config, s: Scan): Outcome {
    match s.stop
    case Some(Broken) => Crashed
    case Some(AtCeiling(which)) => CeilingExceeded(which)
    case Some(Died(code)) => ProviderError(code)
    case Some(Got(rows)) =>
      var findings := Kept(rows, cfg.workspace);
      if !Readable(rows) then Crashed
      else Completed(AgentRun(findings, s.totals.input, s.totals.output,
                         if Blocks(findings, cfg.failOn) then Fail else Pass))
    case None => if s.refused then ModelRefused else MalformedFindings
  }

  /** What is checked before the first attempt. */
  datatype Setup = Setup(model: string, runtimeFound: bool, promptReadable: bool, workspaceFiles: nat) {
    predicate Ready() { '/' in model && runtimeFound && promptReadable && workspaceFiles > 0 }
  }

  function SecurityOutcome(setup: Setup, cfg: Config, reader: Reader, world: seq<Attempt>): Outcome
    requires |world| >= Max(1, cfg.maxAttempts)
  {
    if !setup.Ready() then ConfigError
    else OutcomeOf(cfg, Scanned(cfg, reader, world, Max(1, cfg.maxAttempts)))
  }

  class SecurityDiagnostics {
    var attempts: nat
    var refusals: nat
    var malformed: nat
    var steps: nat
    var toolCalls: nat
    var tokensIn: nat
    var tokensOut: nat
    var cacheRead: nat
    var cacheWrite: nat
    var totalReported: nat
    var findingsDropped: nat
    var ceiling: Option<Ceiling>

    constructor ()
      ensures attempts == refusals == malformed == toolCalls == 0 && ceiling == None
      ensures steps == cacheRead == cacheWrite == totalReported == findingsDropped == 0
    {
      attempts, refusals, malformed, steps, toolCalls := 0, 0, 0, 0, 0;
      tokensIn, tokensOut, cacheRead, cacheWrite, totalReported := 0, 0, 0, 0, 0;
      findingsDropped, ceiling := 0, None;
    }

    /** The numbers every outcome carries. A dead provider is reported with its tokens only. */
    ghost predicate Reports(cfg: Config, s: Scan)
      reads this
    {
      && attempts == s.attempts && refusals == s.refusals && malformed == s.malformed
      && toolCalls == s.toolCalls
      && tokensIn == s.totals.input && tokensOut == s.totals.output
      && ceiling == (if s.stop.Some? && s.stop.value.AtCeiling? then Some(s.stop.value.which) else None)
      && (if s.stop.Some? && s.stop.value.Died? then steps == cacheRead == cacheWrite == totalReported == 0
          else steps == s.totals.steps && cacheRead == s.totals.cacheRead && cacheWrite == s.totals.cacheWrite
               && totalReported == s.totals.total)
      && findingsDropped + (if s.stop.Some? && s.stop.value.Got? then |Kept(s.stop.value.rows, cfg.workspace)| else 0)
         == if s.stop.Some? && s.stop.value.Got? then |s.stop.value.rows| else 0
    }
  }

  /** Reads one finished attempt the way the loop body does. */
  method JudgeRun(run: StreamResult, fences: string -> seq<string>, parse: string -> Parsed<seq<Row>>)
    returns (verdict: Verdict)
    ensures verdict == Judge(run, AgentReader(fences, parse))
  {
    if run.raised {
      return Stopped(Broken);
    }
    if run.ceiling.Some? {
      return Stopped(AtCeiling(run.ceiling.value));
    }
    var text := Strip(run.text);
    if run.code != 0 && text == "" {
      return Stopped(Died(run.code));
    }
    if LooksLikeRefusal(text) {
      return Declined;
    }
    var results := ExtractResults(text, fences(text), parse);
    match results
    case Found(rows) => verdict := Stopped(Got(rows));
    case Raised => verdict := Stopped(Broken);
    case Nothing => verdict := Unreadable;
  }

  /** The retry loop; the counters it moves are those of `diag` and `totals`. */
  method RunAttempts(cfg: Config, fences: string -> seq<string>, parse: string -> Parsed<seq<Row>>,
                     world: seq<Attempt>, diag: SecurityDiagnostics, totals: Usage)
    returns (stop: Option<Stop>, refused: bool, elapsed: Seconds)
    requires |world| >= Max(1, cfg.maxAttempts)
    requires diag.attempts == diag.refusals == diag.malformed == diag.toolCalls == 0 && totals.Value() == ZERO
    modifies diag`attempts, diag`refusals, diag`malformed, diag`toolCalls, totals
    ensures Scanned(cfg, AgentReader(fences, parse), world, Max(1, cfg.maxAttempts)) ==
            Scan(diag.attempts, diag.refusals, diag.malformed, totals.Value(), elapsed, diag.toolCalls, refused, stop)
  {
    hide Strip, Stream, Judge, Remaining, AgentReader, Scanned, Tally.Plus;
    ghost var reader := AgentReader(fences, parse);
    stop, refused, elapsed := None, false, 0.0;
    var limit := Max(1, cfg.maxAttempts);
    var n := 0;
    ScannedFirst(cfg, reader, world);
    while n < limit && stop.None?
      invariant 0 <= n <= limit
      invariant Scanned(cfg, reader, world, n) ==
                Scan(diag.attempts, diag.refusals, diag.malformed, totals.Value(), elapsed, diag.toolCalls,
                     refused, stop)
      decreases limit - n
    {
      ScannedNext(cfg, reader, world, n);
      diag.attempts := diag.attempts + 1;
      var run, usage := StreamOpencode(world[n], Remaining(cfg, totals.Value(), elapsed));
      totals.Add(usage);
      elapsed := elapsed + world[n].elapsed;
      diag.toolCalls := diag.toolCalls + run.toolCalls;
      var verdict := JudgeRun(run, fences, parse);
      match verdict {
        case Stopped(why) =>
          stop := Some(why);
          if why.Got? { refused := false; }
        case Declined =>
          refused := true;
          diag.refusals := diag.refusals + 1;
        case Unreadable =>
          refused := false;
          diag.malformed := diag.malformed + 1;
      }
      n := n + 1;
    }
    ScannedStays(cfg, reader, world, n, limit);
  }

  method RunSecurity(setup: Setup, cfg: Config, fences: string -> seq<string>, parse: string -> Parsed<seq<Row>>,
                     world: seq<Attempt>)
    returns (outcome: Outcome, diag: SecurityDiagnostics?)
    requires |world| >= Max(1, cfg.maxAttempts)
    ensures outcome == SecurityOutcome(setup, cfg, AgentReader(fences, parse), world)
    ensures outcome.ConfigError? <==>
            '/' !in setup.model || !setup.runtimeFound || !setup.promptReadable || setup.workspaceFiles == 0
    ensures diag == null <==> outcome.ConfigError? || outcome.Crashed?
    ensures diag != null ==>
              fresh(diag) && diag.Reports(cfg, Scanned(cfg, AgentReader(fences, parse), world, Max(1, cfg.maxAttempts)))
  {
    hide Kept, Blocks, AgentReader, Scanned, Tally.Plus, SecurityDiagnostics.Reports, OutcomeOf;
    if '/' !in setup.model || !setup.runtimeFound || !setup.promptReadable || setup.workspaceFiles == 0 {
      return ConfigError, null;
    }
    diag := new SecurityDiagnostics();
    var totals := new Usage();
    var stop, refused, elapsed := RunAttempts(cfg, fences, parse, world, diag, totals);
    ghost var s := Scan(diag.attempts, diag.refusals, diag.malformed, totals.Value(), elapsed, diag.toolCalls,
                        refused, stop);
    outcome := Conclude(cfg, stop, refused, totals, diag, s);
    if outcome.Crashed? {
      diag := null;
    }
  }

  /** The report and the classification after the loop. */
  method Conclude(cfg: Config, stop: Option<Stop>, refused: bool, totals: Usage, diag: SecurityDiagnostics,
                  ghost s: Scan)
    returns (outcome: Outcome)
    requires s.stop == stop && s.refused == refused && s.totals == totals.Value()
    requires diag.attempts == s.attempts && diag.refusals == s.refusals && diag.malformed == s.malformed
    requires diag.toolCalls == s.toolCalls && diag.ceiling == None
    requires diag.steps == diag.cacheRead == diag.cacheWrite == diag.totalReported == diag.findingsDropped == 0
    modifies diag
    ensures outcome == OutcomeOf(cfg, s) && !outcome.ConfigError?
    ensures !outcome.Crashed? ==> diag.Reports(cfg, s)
  {
    hide Kept, Blocks, BlockingCount;
    diag.tokensIn := totals.input;
    diag.tokensOut := totals.output;
    if stop.None? || !stop.value.Died? {
      diag.steps := totals.steps;
      diag.cacheRead := totals.cacheRead;
      diag.cacheWrite := totals.cacheWrite;
      diag.totalReported := totals.total;
    }
    match stop {
      case Some(Broken) => outcome := Crashed;
      case Some(AtCeiling(which)) =>
        diag.ceiling := Some(which);
        outcome := CeilingExceeded(which);
      case Some(Died(code)) => outcome := ProviderError(code);
      case Some(Got(rows)) =>
        var findings, dropped := ToFindings(rows, cfg.workspace);
        if findings.None? {
          return Crashed;
        }
        diag.findingsDropped := dropped;
        var gate, _ := ApplyGate(findings.value, cfg.failOn);
        outcome := Completed(AgentRun(findings.value, totals.input, totals.output, gate));
      case None => outcome := if refused then ModelRefused else MalformedFindings;
    }
  }

  lemma ScannedFirst(cfg: Config, reader: Reader, world: seq<Attempt>)
    ensures Scanned(cfg, reader, world, 0) == FRESH
  {
  }

  lemma ScannedNext(cfg: Config, reader: Reader, world: seq<Attempt>, n: nat)
    requires n < |world| && Scanned(cfg, reader, world, n).stop.None?
    ensures Scanned(cfg, reader, world, n + 1) == NextScan(cfg, reader, Scanned(cfg, reader, world, n), world[n])
  {
    hide NextScan;
  }

  /** Once the loop has stopped, further attempts change nothing. */
  lemma {:induction false} ScannedStays(cfg: Config, reader: Reader, world: seq<Attempt>, n: nat, m: nat)
    requires n <= m <= |world|
    ensures Scanned(cfg, reader, world, n).stop.Some? ==>
              Scanned(cfg, reader, world, m) == Scanned(cfg, reader, world, n)
  {
    hide NextScan;
    if n < m { ScannedStays(cfg, reader, world, n, m - 1); }
  }
}
