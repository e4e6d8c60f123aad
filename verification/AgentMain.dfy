/** From an outcome to the exit code the CI stage branches on (agent/__main__.py,
    agent/errors.py). */
module AgentMain {
  import opened Common
  import opened Extraction
  import opened Findings
  import opened SecurityScan

  const EXIT_PASS := 0
  const EXIT_GATE_FAIL := 1
  const EXIT_MALFORMED := 2
  const EXIT_REFUSED := 3
  const EXIT_CONFIG := 4
  const EXIT_CEILING := 124

  datatype Task = Review | Security

  /** What the review task ended with; its errors carry their own exit code. */
  datatype ReviewEnd = Reviewed(gate: Gate) | ReviewError(code: int) | OtherException

  datatype Fetch = FetchFailed | Fetched(task: Task, credentialPresent: bool)

  datatype Post = Posted | PostFailed

  /** Everything `main` meets outside the two tasks. */
  datatype Invocation = Invocation(configValid: bool, remoteConfigured: bool, fetch: Fetch, localTask: Task,
                                   bakedTask: Option<Task>, diffReadable: bool, review: ReviewEnd,
                                   postRequested: bool, buildId: string, post: Post) {
    predicate Resolves() {
      configValid && (remoteConfigured ==> fetch.Fetched? && fetch.credentialPresent)
    }

    function ChosenTask(): Task
      requires Resolves()
    {
      if remoteConfigured then fetch.task else localTask
    }

    predicate Starts() {
      Resolves() && (bakedTask.Some? ==> bakedTask.value == ChosenTask())
    }

    /** Nothing was to be posted, or it was and it arrived. */
    predicate Delivered() {
      postRequested ==> remoteConfigured && buildId != "" && post.Posted?
    }
  }

  /** The table the CI stage branches on: the code tells every outcome from every other, save a
      bad set-up, a dead provider and an unforeseen exception from each other. */
  function ExitCodeOf(outcome: Outcome): (code: int)
    ensures code == 0 <==> outcome.Completed? && outcome.run.gate == Pass
    ensures code == 1 <==> outcome.Completed? && outcome.run.gate == Fail
    ensures code == 2 <==> outcome.MalformedFindings?
    ensures code == 3 <==> outcome.ModelRefused?
    ensures code == 4 <==> outcome.ConfigError? || outcome.ProviderError? || outcome.Crashed?
    ensures code == 124 <==> outcome.CeilingExceeded?
  {
    match outcome
    case ConfigError => EXIT_CONFIG
    case ProviderError(_) => EXIT_CONFIG
    case Crashed => EXIT_CONFIG
    case CeilingExceeded(_) => EXIT_CEILING
    case ModelRefused => EXIT_REFUSED
    case MalformedFindings => EXIT_MALFORMED
    case Completed(run) => match run.gate { case Pass => EXIT_PASS case Fail => EXIT_GATE_FAIL }
  }

  method Exit(inv: Invocation, gate: Gate) returns (code: int)
    ensures code == EXIT_PASS <==> gate == Pass && inv.Delivered()
    ensures code == EXIT_GATE_FAIL <==> gate == Fail && inv.Delivered()
    ensures code == EXIT_CONFIG <==> !inv.Delivered()
  {
    if inv.postRequested {
      if !inv.remoteConfigured { return EXIT_CONFIG; }
      if inv.buildId == "" { return EXIT_CONFIG; }
      if inv.post.PostFailed? { return EXIT_CONFIG; }
    }
    code := if gate == Pass then EXIT_PASS else EXIT_GATE_FAIL;
  }

  /** `main`: 0 only for a pass gate whose requested POST succeeded; a security scan that did
      not complete keeps its own code, whatever was to be posted. */
  method RunAgent(inv: Invocation, setup: Setup, cfg: Config, fences: string -> seq<string>,
                  parse: string -> Parsed<seq<Row>>, world: seq<Attempt>)
    returns (code: int)
    requires |world| >= Max(1, cfg.maxAttempts)
    requires inv.review.ReviewError? ==> inv.review.code in {EXIT_MALFORMED, EXIT_REFUSED, EXIT_CONFIG, EXIT_CEILING}
    ensures var outcome := SecurityOutcome(setup, cfg, AgentReader(fences, parse), world);
            && (code == EXIT_PASS <==>
                && inv.Starts() && inv.Delivered()
                && match inv.ChosenTask()
                   case Review => inv.diffReadable && inv.review == Reviewed(Pass)
                   case Security => outcome.Completed? && outcome.run.gate == Pass)
            && (code == EXIT_GATE_FAIL <==>
                && inv.Starts() && inv.Delivered()
                && match inv.ChosenTask()
                   case Review => inv.diffReadable && inv.review == Reviewed(Fail)
                   case Security => outcome.Completed? && outcome.run.gate == Fail)
            && (inv.Starts() && inv.ChosenTask() == Security && !outcome.Completed? ==> code == ExitCodeOf(outcome))
    ensures inv.Starts() && inv.ChosenTask() == Review && inv.diffReadable && inv.review.ReviewError? ==>
              code == inv.review.code
    ensures !inv.Starts() ==> code == EXIT_CONFIG
    ensures code in {EXIT_PASS, EXIT_GATE_FAIL, EXIT_MALFORMED, EXIT_REFUSED, EXIT_CONFIG, EXIT_CEILING}
  {
    if !inv.configValid {
      return EXIT_CONFIG;
    }
    var task := inv.localTask;
    if inv.remoteConfigured {
      if inv.fetch.FetchFailed? || !inv.fetch.credentialPresent {
        return EXIT_CONFIG;
      }
      task := inv.fetch.task;
    }
    if inv.bakedTask.Some? && inv.bakedTask.value != task {
      return EXIT_CONFIG;
    }
    hide SecurityOutcome, AgentReader;
    match task {
      case Review =>
        if !inv.diffReadable {
          return EXIT_CONFIG;
        }
        match inv.review {
          case ReviewError(c) => return c;
          case OtherException => return EXIT_CONFIG;
          case Reviewed(gate) => code := Exit(inv, gate);
        }
      case Security =>
        var outcome, _ := RunSecurity(setup, cfg, fences, parse, world);
        if !outcome.Completed? {
          return ExitCodeOf(outcome);
        }
        code := Exit(inv, outcome.run.gate);
    }
  }
}
