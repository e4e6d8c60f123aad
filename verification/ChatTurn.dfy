/** One turn of the grounded chat: the budget-fenced client, the SQL retrieval loop and the
    pipeline's terminal shapes (app/chat/pipeline.py, app/chat/retrieve.py, app/chat/generate.py).
    The provider and the clock are a script of replies; prompt building, output cleaning, the
    SQL gate and the read-only database are functions the turn is given. */
module ChatTurn {
  import opened Common
  import opened Llm
  import opened PyText
  import opened TokenBudget

  // ---------------------------------------------------------------- the fenced client

  class CappedClient {
    const usage: LlmUsage
    const cap: int
    const env: nat -> CallEnv
    var calls: nat
    var responses: seq<Response>
    var mine: set<nat>            // this turn's reservations
    ghost var sent: seq<Prompt>   // what reached the provider

    ghost function Done(): Trail
      reads this, usage
    {
      Trail(usage.calls, mine, calls, responses, sent)
    }

    constructor (usage: LlmUsage, cap: int, env: nat -> CallEnv)
      ensures this.usage == usage && this.cap == cap && this.env == env
      ensures calls == 0 && responses == [] && sent == [] && mine == {}
    {
      this.usage, this.cap, this.env := usage, cap, env;
      calls, responses, sent, mine := 0, [], [], {};
    }

    /** The state of the tally when the next call reserves: the other replicas have run. */
    function Met(): State
      reads this, usage
    {
      Interfered(usage.Value(), mine, usage.others(usage.gaps))
    }

    /** Reserve the worst case, call, settle, with the other replicas running before, between and
        after. One reservation is made and it ends exactly as the call does; over the cap nothing
        reaches the provider. */
    method Complete(p: Prompt, maxTokens: nat) returns (r: Completion, ghost id: nat)
      requires usage.Valid() && Owned(usage.calls, mine)
      modifies this, usage
      ensures usage.Valid() && Undisturbed(old(usage.calls), usage.calls, old(mine))
      ensures calls == old(calls) + 1
      ensures var e := env(old(calls));
              && r == Outcome(Tally(old(Met()).table, e.hour) + Estimate(p, maxTokens) <= cap, e.reply)
              && |old(usage.calls)| <= id < |usage.calls| && mine == old(mine) + {id}
              && usage.calls[id] == Ending(r, e.hour, Estimate(p, maxTokens))
      ensures responses == if r.Answered? then old(responses) + [r.response] else old(responses)
      ensures sent == if r.CapExceeded? then old(sent) else old(sent) + [p]
    {
      hide Apply, Exec, AddTo, Estimate, Interfered, TokensOf, NonNegative, Enabled, LlmUsage.Valid;
      var e := env(calls);
      calls := calls + 1;
      ghost var first, before := usage.calls, mine;
      usage.OthersRun(mine);
      ghost var second := usage.calls;
      var own := |usage.calls|;
      id := own;
      var reservation := usage.ReserveTokens(e.hour, Estimate(p, maxTokens), cap, mine);
      assert reservation.Some? == (Tally(old(Met()).table, e.hour) + Estimate(p, maxTokens) <= cap);
      hide Tally, CappedClient.Met, Outcome, Ending, LlmUsage.Value;
      OutcomeOf(e.reply);
      mine := mine + {own};
      UndisturbedThrough(first, second, usage.calls, before, id, usage.calls[id]);
      if reservation.None? {
        EndingOf(e.hour, Estimate(p, maxTokens));
        return CapExceeded, id;
      }
      sent := sent + [p];
      second := usage.calls;
      usage.OthersRun(mine);
      assert Undisturbed(second, usage.calls, before) && usage.calls[id] == second[id];
      assert id !in before && usage.Holds(reservation.value);
      ghost var third := usage.calls;
      r := Settle(usage, reservation.value, e.reply);
      UndisturbedThrough(first, second, third, before, id, Ending(r, e.hour, Estimate(p, maxTokens)));
      hide Undisturbed, Owned;
      if r.Answered? {
        responses := responses + [r.response];
      }
    }
  }

  // ---------------------------------------------------------------- one attempt at catalog rows

  datatype Gate = Passed(sql: string) | Rejected(reason: string)

  type Cells = seq<string>

  datatype Execution = Rows(columns: seq<string>, rows: seq<Cells>) | DbError(message: string)

  datatype Chat = Chat(
    clean: string -> string, sqlPrompt: string -> Prompt, retryContext: (string, string) -> string,
    gate: string -> Gate, execute: (nat, string) -> Execution,
    answerPrompt: (Option<string>, seq<string>, seq<Cells>) -> Prompt,
    maxTokens: nat, maxRetries: int)

  const REFUSAL_TOKEN := "CANNOT_ANSWER"

  const NO_QUERY_TOKEN := "NO_QUERY"

  datatype SqlGeneration = Refusal | NoQuery | Sql(text: string)

  /** The three-way decision; the refusal token is looked for first, in any case. */
  function Decode(cleaned: string): SqlGeneration {
    if REFUSAL_TOKEN <= Upper(cleaned) then Refusal
    else if NO_QUERY_TOKEN <= Upper(cleaned) then NoQuery
    else Sql(cleaned)
  }

  datatype Attempt =
    | Refused
    | SpendOnly
    | Unsafe(sql: string, reason: string)
    | Failed(sql: string, error: string)
    | Found(sql: string, columns: seq<string>, rows: seq<Cells>)

  /** What attempt k comes to when the model says `text`. */
  function AttemptOf(c: Chat, k: nat, text: string): Attempt {
    match Decode(c.clean(text))
    case Refusal => Refused
    case NoQuery => SpendOnly
    case Sql(t) =>
      match c.gate(t)
      case Rejected(reason) => Unsafe(t, reason)
      case Passed(sql) =>
        match c.execute(k, sql)
        case DbError(message) => Failed(sql, Strip(message))
        case Rows(columns, rows) => Found(sql, columns, rows)
  }

  function LastAttempt(c: Chat, rs: seq<Response>): Attempt
    requires rs != []
  {
    AttemptOf(c, |rs| - 1, rs[|rs| - 1].text)
  }

  /** Only a database error is tried again. */
  predicate AllRetried(c: Chat, rs: seq<Response>) {
    forall k | 0 <= k < |rs| :: AttemptOf(c, k, rs[k].text).Failed?
  }

  function Budget(c: Chat): nat { if c.maxRetries + 1 > 0 then c.maxRetries + 1 else 0 }

  /** A sequence of answers after which the loop stops. */
  predicate Finished(c: Chat, rs: seq<Response>) {
    && |rs| <= Budget(c)
    && AllRetried(c, if rs == [] then [] else rs[..|rs| - 1])
    && (|rs| < Budget(c) ==> rs != [] && !LastAttempt(c, rs).Failed?)
  }

  /** The prompts of the first n attempts: each later one is told the query that failed before
      it and why. */
  function PromptsFor(c: Chat, rs: seq<Response>, n: nat): seq<Prompt>
    requires n <= |rs| + 1
  {
    if n == 0 then []
    else PromptsFor(c, rs, n - 1) + [c.sqlPrompt(ContextAfter(c, rs[..n - 1]))]
  }

  function ContextAfter(c: Chat, rs: seq<Response>): string {
    if rs == [] then ""
    else match LastAttempt(c, rs) { case Failed(sql, error) => c.retryContext(sql, error) case _ => "" }
  }

  lemma {:induction false} PromptsForLocal(c: Chat, rs: seq<Response>, more: seq<Response>, n: nat)
    requires n <= |rs| + 1
    ensures PromptsFor(c, rs + more, n) == PromptsFor(c, rs, n)
  {
    if n > 0 {
      PromptsForLocal(c, rs, more, n - 1);
      assert (rs + more)[..n - 1] == rs[..n - 1];
    }
  }

  /** The statement an attempt sends to the database, if it gets that far. */
  function RanBy(a: Attempt): seq<string> {
    match a { case Failed(sql, _) => [sql] case Found(sql, _, _) => [sql] case _ => [] }
  }

  /** The statements the read-only role is asked to run. */
  function Executed(c: Chat, rs: seq<Response>): seq<string> {
    if rs == [] then []
    else Executed(c, rs[..|rs| - 1]) + RanBy(LastAttempt(c, rs))
  }

  function TotalIn(rs: seq<Response>): nat { if rs == [] then 0 else TotalIn(rs[..|rs| - 1]) + rs[|rs| - 1].tokensIn }

  function TotalOut(rs: seq<Response>): nat {
    if rs == [] then 0 else TotalOut(rs[..|rs| - 1]) + rs[|rs| - 1].tokensOut
  }

  /** The recorded answers are the script's. */
  ghost predicate Followed(env: nat -> CallEnv, rs: seq<Response>) {
    forall k | 0 <= k < |rs| :: env(k).reply == Answers(rs[k])
  }

  /** The tokens of the recorded answers that fall into an hour. */
  function Spent(env: nat -> CallEnv, rs: seq<Response>, h: Hour): nat {
    if rs == [] then 0
    else
      var n := |rs| - 1;
      Spent(env, rs[..n], h) + if env(n).hour == h then TokensOf(rs[n]) else 0
  }

  // ---------------------------------------------------------------- the retrieval loop

  datatype Failure = Blocked(reason: string) | GaveUp(attempts: nat, lastError: Option<string>)

  datatype Retrieval = Retrieval(
    ok: bool, noQuery: bool, refused: bool, sql: Option<string>, columns: seq<string>, rows: seq<Cells>,
    error: Option<Failure>, attempts: nat, tokensIn: nat, tokensOut: nat, model: string)

  datatype Retrieved = Returned(result: Retrieval) | Throttled | Crashed

  function ModelOf(rs: seq<Response>): string { if rs == [] then "" else rs[|rs| - 1].model }

  /** The result an attempt returns with, on top of the counts so far. */
  function Conclude(blank: Retrieval, attempt: Attempt): Retrieval {
    match attempt
    case Refused => blank.(refused := true)
    case SpendOnly => blank.(ok := true, noQuery := true)
    case Unsafe(sql, reason) => blank.(sql := Some(sql), error := Some(Blocked(reason)))
    case Failed(sql, error) => blank.(sql := Some(sql), error := Some(GaveUp(blank.attempts, Some(error))))
    case Found(sql, columns, rows) => blank.(ok := true, sql := Some(sql), columns := columns, rows := rows)
  }

  function Blank(attempts: nat, tokensIn: nat, tokensOut: nat, model: string): Retrieval {
    Retrieval(false, false, false, None, [], [], None, attempts, tokensIn, tokensOut, model)
  }

  /** The result that the answers of all attempts determine. */
  function RetrievalOf(c: Chat, rs: seq<Response>): Retrieval {
    var blank := Blank(|rs|, TotalIn(rs), TotalOut(rs), ModelOf(rs));
    if rs == [] then blank.(error := Some(GaveUp(0, None))) else Conclude(blank, LastAttempt(c, rs))
  }

  /** What a turn's client has done so far, and everybody's reservations. */
  datatype Trail = Trail(ledger: seq<Call>, mine: set<nat>, calls: nat, responses: seq<Response>, sent: seq<Prompt>)

  /** Every reservation of the turn has ended, and what they keep in each hour's tally is exactly
      the tokens of the recorded answers. */
  ghost predicate Accounted(env: nat -> CallEnv, ledger: seq<Call>, mine: set<nat>, rs: seq<Response>) {
    && (forall i | i in mine :: i < |ledger| && Ended(ledger[i]))
    && forall h :: Share(ledger, mine, h) == Spent(env, rs, h)
  }

  /** Holds at every point of a turn; `base` is how many reservations there were before it. */
  ghost predicate InOrder(env: nat -> CallEnv, base: nat, t: Trail) {
    && Accounted(env, t.ledger, t.mine, t.responses)
    && |t.mine| == t.calls && base <= |t.ledger| && (forall i | i in t.mine :: base <= i)
    && Followed(env, t.responses)
  }

  /** Holds at every point of the retrieval. */
  ghost predicate OnTrack(c: Chat, env: nat -> CallEnv, base: nat, t: Trail) {
    && InOrder(env, base, t)
    && |t.sent| <= |t.responses| + 1
    && t.sent == PromptsFor(c, t.responses, |t.sent|)
  }

  function WithAnswer(rs: seq<Response>, r: Completion): seq<Response> {
    if r.Answered? then rs + [r.response] else rs
  }

  /** One more call, ended as it should be. */
  lemma AccountCall(env: nat -> CallEnv, before: seq<Call>, after: seq<Call>, mine: set<nat>, rs: seq<Response>,
                    r: Completion, id: nat, estimate: nat)
    requires Accounted(env, before, mine, rs) && Undisturbed(before, after, mine)
    requires |before| <= id < |after| && after[id] == Ending(r, env(|rs|).hour, estimate)
    ensures Accounted(env, after, mine + {id}, WithAnswer(rs, r))
    ensures |mine + {id}| == |mine| + 1
  {
    assert id !in mine;
    forall h ensures Share(after, mine + {id}, h) == Spent(env, WithAnswer(rs, r), h) {
      ShareKept(before, after, mine, h);
      EndingLeaves(r, env(|rs|).hour, estimate, after, mine, id, h);
      assert Share(before, mine, h) == Spent(env, rs, h);
      if r.Answered? { assert (rs + [r.response])[..|rs|] == rs; }
    }
  }

  lemma FollowOneMore(env: nat -> CallEnv, rs: seq<Response>, x: Response)
    requires Followed(env, rs) && env(|rs|).reply == Answers(x)
    ensures Followed(env, rs + [x])
  {
  }

  lemma PromptOneMore(c: Chat, rs: seq<Response>, more: seq<Response>)
    ensures PromptsFor(c, rs + more, |rs| + 1) == PromptsFor(c, rs, |rs|) + [c.sqlPrompt(ContextAfter(c, rs))]
  {
    assert rs[..|rs|] == rs;
    PromptsForLocal(c, rs, more, |rs| + 1);
  }

  /** One more call from t to u, with this prompt. */
  ghost predicate OneCall(env: nat -> CallEnv, t: Trail, u: Trail, p: Prompt, r: Completion, id: nat, estimate: nat) {
    && Undisturbed(t.ledger, u.ledger, t.mine) && |t.ledger| <= id < |u.ledger| && u.mine == t.mine + {id}
    && u.ledger[id] == Ending(r, env(t.calls).hour, estimate) && u.calls == t.calls + 1
    && (r.Answered? ==> env(t.calls).reply == Answers(r.response))
    && u.responses == WithAnswer(t.responses, r)
    && u.sent == if r.CapExceeded? then t.sent else t.sent + [p]
  }

  lemma OneMoreCall(env: nat -> CallEnv, base: nat, t: Trail, u: Trail, p: Prompt, r: Completion,
                    id: nat, estimate: nat)
    requires InOrder(env, base, t) && t.calls == |t.responses| && OneCall(env, t, u, p, r, id, estimate)
    ensures InOrder(env, base, u)
  {
    AccountCall(env, t.ledger, u.ledger, t.mine, t.responses, r, id, estimate);
    if r.Answered? { FollowOneMore(env, t.responses, r.response); }
    hide Accounted, Followed, Ending, Undisturbed;
  }

  /** One more prompt, and its answer if one came. */
  lemma OneMoreAttempt(c: Chat, env: nat -> CallEnv, base: nat, t: Trail, u: Trail, r: Completion,
                       id: nat, estimate: nat)
    requires OnTrack(c, env, base, t) && t.calls == |t.responses| == |t.sent|
    requires OneCall(env, t, u, c.sqlPrompt(ContextAfter(c, t.responses)), r, id, estimate)
    ensures OnTrack(c, env, base, u)
  {
    hide InOrder, PromptsFor, ContextAfter, Ending, Undisturbed;
    OneMoreCall(env, base, t, u, c.sqlPrompt(ContextAfter(c, t.responses)), r, id, estimate);
    if r.Answered? {
      PromptOneMore(c, t.responses, [r.response]);
    } else {
      PromptOneMore(c, t.responses, []);
      assert t.responses + [] == t.responses;
    }
  }

  method GenerateSql(c: Chat, client: CappedClient, context: string, ghost base: nat)
    returns (r: Completion, gen: SqlGeneration)
    requires client.usage.Valid() && OnTrack(c, client.env, base, client.Done())
    requires client.calls == |client.responses| == |client.sent| && context == ContextAfter(c, client.responses)
    modifies client, client.usage
    ensures client.usage.Valid() && OnTrack(c, client.env, base, client.Done())
    ensures client.calls == old(client.calls) + 1
    ensures client.responses == WithAnswer(old(client.responses), r)
    ensures |client.sent| == old(|client.sent|) + if r.CapExceeded? then 0 else 1
    ensures r.Answered? ==> gen == Decode(c.clean(r.response.text))
  {
    ghost var before := client.Done();
    assert Owned(before.ledger, before.mine);
    hide OnTrack, Decode;
    ghost var id;
    r, id := client.Complete(c.sqlPrompt(context), c.maxTokens);
    OneMoreAttempt(c, client.env, base, before, client.Done(), r, id, Estimate(c.sqlPrompt(context), c.maxTokens));
    gen := if r.Answered? then Decode(c.clean(r.response.text)) else Refusal;
  }

  /** Gate, then execute: the k-th attempt once the model has spoken. */
  method GateAndRun(c: Chat, k: nat, gen: SqlGeneration, ghost text: string) returns (a: Attempt, ran: seq<string>)
    requires gen == Decode(c.clean(text))
    ensures a == AttemptOf(c, k, text)
    ensures ran == RanBy(a)
  {
    hide Decode;
    match gen
    case Refusal => return Refused, [];
    case NoQuery => return SpendOnly, [];
    case Sql(sql) =>
      var gate := c.gate(sql);
      if gate.Rejected? {
        return Unsafe(sql, gate.reason), [];
      }
      var execution := c.execute(k, gate.sql);
      ran := [gate.sql];
      match execution
      case DbError(message) => a := Failed(gate.sql, Strip(message));
      case Rows(columns, rows) => a := Found(gate.sql, columns, rows);
  }

  /** The loop's variables between two attempts. */
  datatype Vars = Vars(attempts: nat, tokensIn: nat, tokensOut: nat, model: string, context: string,
                       lastSql: Option<string>, lastError: Option<string>)

  ghost predicate Between(c: Chat, rs: seq<Response>, ran: seq<string>, v: Vars) {
    && AllRetried(c, rs) && ran == Executed(c, rs) && v.attempts == |rs| <= Budget(c)
    && v.tokensIn == TotalIn(rs) && v.tokensOut == TotalOut(rs) && v.model == ModelOf(rs)
    && v.context == ContextAfter(c, rs)
    && if rs == [] then v.lastSql == None && v.lastError == None
       else v.lastSql.Some? && v.lastError.Some? && LastAttempt(c, rs) == Failed(v.lastSql.value, v.lastError.value)
  }

  lemma LoopEnds(c: Chat, rs: seq<Response>, x: Response, all: seq<Response>, ran: seq<string>, v: Vars, w: Vars,
                 a: Attempt, now: seq<string>)
    requires Between(c, rs, ran, v) && |rs| < Budget(c) && all == rs + [x]
    requires w.attempts == v.attempts + 1 && w.model == x.model
    requires w.tokensIn == v.tokensIn + x.tokensIn && w.tokensOut == v.tokensOut + x.tokensOut
    requires a == AttemptOf(c, |rs|, x.text) && !a.Failed? && now == ran + RanBy(a)
    ensures Finished(c, all) && now == Executed(c, all)
    ensures RetrievalOf(c, all) == Conclude(Blank(w.attempts, w.tokensIn, w.tokensOut, w.model), a)
  {
    hide AttemptOf;
    assert all[..|rs|] == rs;
  }

  lemma LoopGoesOn(c: Chat, rs: seq<Response>, x: Response, all: seq<Response>, ran: seq<string>, v: Vars, w: Vars,
                   a: Attempt, now: seq<string>)
    requires Between(c, rs, ran, v) && |rs| < Budget(c) && all == rs + [x]
    requires w.attempts == v.attempts + 1 && w.model == x.model
    requires w.tokensIn == v.tokensIn + x.tokensIn && w.tokensOut == v.tokensOut + x.tokensOut
    requires a == AttemptOf(c, |rs|, x.text) && a.Failed? && now == ran + RanBy(a)
    requires w.context == c.retryContext(a.sql, a.error) && w.lastSql == Some(a.sql) && w.lastError == Some(a.error)
    ensures Between(c, all, now, w)
  {
    hide AttemptOf;
    assert all[..|rs|] == rs;
    forall k | 0 <= k < |all| ensures AttemptOf(c, k, all[k].text).Failed? {
      if k < |rs| { assert all[k] == rs[k]; }
    }
  }

  lemma AfterLastAttempt(c: Chat, rs: seq<Response>, ran: seq<string>, v: Vars)
    requires Between(c, rs, ran, v) && |rs| >= Budget(c)
    ensures Finished(c, rs) && RetrievalOf(c, rs) ==
                               Blank(v.attempts, v.tokensIn, v.tokensOut, v.model).(
                               sql := v.lastSql, error := Some(GaveUp(v.attempts, v.lastError)))
  {
    hide AttemptOf;
  }

  method RetrieveCatalog(c: Chat, client: CappedClient) returns (r: Retrieved, ran: seq<string>)
    requires client.usage.Valid()
    requires client.calls == 0 && client.responses == [] && client.sent == [] && client.mine == {}
    modifies client, client.usage
    ensures client.usage.Valid() && OnTrack(c, client.env, |old(client.usage.calls)|, client.Done())
    ensures ran == Executed(c, client.responses)
    ensures r.Returned? ==> Finished(c, client.responses) && r.result == RetrievalOf(c, client.responses)
    ensures !r.Returned? ==> AllRetried(c, client.responses) && |client.responses| < Budget(c)
    ensures client.calls == |client.responses| + if r.Returned? then 0 else 1
    ensures |client.sent| == |client.responses| + if r.Crashed? then 1 else 0
  {
    ghost var start := |client.usage.calls|;
    NothingSpent(client.env, client.usage.calls);
    var context := "";
    var tokensIn: nat, tokensOut: nat, attempts: nat := 0, 0, 0;
    var model := "";
    var lastSql, lastError := None, None;
    ran := [];
    assert OnTrack(c, client.env, start, client.Done());
    assert Between(c, client.responses, ran, Vars(attempts, tokensIn, tokensOut, model, context, lastSql, lastError));
    hide Decode, OnTrack, CappedClient.Done, AttemptOf, Executed, AllRetried, Between, Finished,
         RetrievalOf, Conclude, Blank;
    hide RanBy, ContextAfter, LastAttempt, TotalIn, TotalOut, ModelOf, Strip, NonNegative;
    BetweenMeaning(c, client.responses, ran, Vars(attempts, tokensIn, tokensOut, model, context, lastSql, lastError));
    while attempts < c.maxRetries + 1
      invariant client.usage.Valid() && OnTrack(c, client.env, start, client.Done())
      invariant attempts == client.calls == |client.responses| == |client.sent|
      invariant Between(c, client.responses, ran,
                        Vars(attempts, tokensIn, tokensOut, model, context, lastSql, lastError))
      decreases c.maxRetries + 1 - attempts
    {
      ghost var before := client.responses;
      ghost var vars := Vars(attempts, tokensIn, tokensOut, model, context, lastSql, lastError);
      BetweenMeaning(c, before, ran, vars);
      var completion, gen := GenerateSql(c, client, context, start);
      if completion.CapExceeded? {
        return Throttled, ran;
      }
      if completion.ProviderRaised? {
        return Crashed, ran;
      }
      var response := completion.response;
      var attempt, ranNow := GateAndRun(c, attempts, gen, response.text);
      ghost var ranBefore := ran;
      attempts := attempts + 1;
      tokensIn, tokensOut, model := tokensIn + response.tokensIn, tokensOut + response.tokensOut, response.model;
      ran := ran + ranNow;
      if !attempt.Failed? {
        LoopEnds(c, before, response, client.responses, ranBefore, vars,
                 Vars(attempts, tokensIn, tokensOut, model, context, lastSql, lastError), attempt, ran);
        return Returned(Conclude(Blank(attempts, tokensIn, tokensOut, model), attempt)), ran;
      }
      lastSql, lastError := Some(attempt.sql), Some(attempt.error);
      context := c.retryContext(attempt.sql, attempt.error);
      LoopGoesOn(c, before, response, client.responses, ranBefore, vars,
                 Vars(attempts, tokensIn, tokensOut, model, context, lastSql, lastError), attempt, ran);
    }
    BetweenMeaning(c, client.responses, ran, Vars(attempts, tokensIn, tokensOut, model, context, lastSql, lastError));
    AfterLastAttempt(c, client.responses, ran, Vars(attempts, tokensIn, tokensOut, model, context, lastSql, lastError));
    r := Returned(Blank(attempts, tokensIn, tokensOut, model).(
                  sql := lastSql, error := Some(GaveUp(attempts, lastError))));
  }

  lemma NothingSpent(env: nat -> CallEnv, ledger: seq<Call>)
    ensures Accounted(env, ledger, {}, [])
  {
    forall h ensures Share(ledger, {}, h) == Spent(env, [], h) { ShareOfNone(ledger, h); }
  }

  lemma BetweenMeaning(c: Chat, rs: seq<Response>, ran: seq<string>, v: Vars)
    requires Between(c, rs, ran, v)
    ensures AllRetried(c, rs) && ran == Executed(c, rs) && v.attempts == |rs| && v.context == ContextAfter(c, rs)
  {
  }

  // ---------------------------------------------------------------- the pipeline

  const MAX_CATALOG_TRACES := 50

  datatype Answer = OffTopic | CouldNotLookUp | Grounded(text: string)

  datatype Trace = SavingsTrace | CatalogRow(row: nat)

  datatype Status = Fine | Errored | OverCap

  /** The one log line and metrics record of a turn. */
  datatype Observation = Observation(status: Status, tokensIn: nat, tokensOut: nat)

  datatype ChatResult = ChatResult(answer: Answer, refused: bool, traces: seq<Trace>, retrieval: Retrieval,
                                   model: string, tokensIn: nat, tokensOut: nat)

  datatype Turn = Replied(result: ChatResult) | AbortedOverCap | RaisedByProvider

  function CatalogTraces(rows: seq<Cells>): (r: seq<Trace>)
    ensures |r| == Min(|rows|, MAX_CATALOG_TRACES)
    ensures forall i | 0 <= i < |r| :: r[i] == CatalogRow(i)
  {
    seq(Min(|rows|, MAX_CATALOG_TRACES), i requires 0 <= i < Min(|rows|, MAX_CATALOG_TRACES) => CatalogRow(i))
  }

  /** What a turn that replied says, given everything the model answered: the attempts, and
      after a retrieval that worked one more answer, which is the text the user sees. */
  ghost predicate SaysWhatWasFound(c: Chat, rs: seq<Response>, x: ChatResult) {
    var n := x.retrieval.attempts;
    && n <= |rs| && Finished(c, rs[..n]) && x.retrieval == RetrievalOf(c, rs[..n])
    && |rs| == n + (if x.retrieval.ok then 1 else 0)
    && x.refused == x.retrieval.refused
    && x.answer == (if x.retrieval.ok then Grounded(Strip(rs[n].text))
                    else if x.refused then OffTopic else CouldNotLookUp)
    && x.traces == (if x.retrieval.ok then [SavingsTrace] + CatalogTraces(x.retrieval.rows) else [])
    && x.tokensIn == TotalIn(rs) && x.tokensOut == TotalOut(rs) && x.model == ModelOf(rs)
  }

  function ModelUsed(rs: seq<Response>, retrieval: Retrieval): string {
    if rs != [] then ModelOf(rs) else retrieval.model
  }

  lemma SplitTally(usage: LlmUsage, env: nat -> CallEnv, base: nat, client: CappedClient)
    requires usage.Valid() && client.usage == usage && InOrder(env, base, client.Done())
    ensures forall h :: Tally(usage.tokensUsed, h) == Tally(usage.start, h)
                          + OthersShare(usage.calls, client.mine, h) + Spent(env, client.responses, h)
  {
    forall h
      ensures Tally(usage.tokensUsed, h) == Tally(usage.start, h)
                + OthersShare(usage.calls, client.mine, h) + Spent(env, client.responses, h)
    {
      TallySplits(usage.start, usage.schedule, client.mine, h);
      assert Share(usage.calls, client.mine, h) == Spent(env, client.responses, h);
    }
  }

  lemma SaysNotAnswered(c: Chat, rs: seq<Response>, x: ChatResult)
    requires Finished(c, rs) && !RetrievalOf(c, rs).ok
    requires var r := RetrievalOf(c, rs);
             x == ChatResult(if r.refused then OffTopic else CouldNotLookUp, r.refused, [], r, ModelUsed(rs, r),
                             TotalIn(rs), TotalOut(rs))
    ensures SaysWhatWasFound(c, rs, x)
  {
    assert rs[..|rs|] == rs;
  }

  lemma SaysAnswered(c: Chat, rs: seq<Response>, answer: Response, x: ChatResult)
    requires Finished(c, rs) && RetrievalOf(c, rs).ok
    requires var r, all := RetrievalOf(c, rs), rs + [answer];
             x == ChatResult(Grounded(Strip(answer.text)), false, [SavingsTrace] + CatalogTraces(r.rows), r,
                             ModelUsed(all, r), TotalIn(all), TotalOut(all))
    ensures SaysWhatWasFound(c, rs + [answer], x) && (rs + [answer])[..x.retrieval.attempts] == rs
  {
    assert (rs + [answer])[..|rs|] == rs;
  }

  lemma ResultMeaning(c: Chat, rs: seq<Response>)
    requires Finished(c, rs)
    ensures |rs| <= Budget(c) && RetrievalOf(c, rs).attempts == |rs|
    ensures RetrievalOf(c, rs).ok ==> !RetrievalOf(c, rs).refused
    ensures rs == [] ==> RetrievalOf(c, rs).model == "" && !RetrievalOf(c, rs).ok
    ensures rs != [] ==> RetrievalOf(c, rs).model == ModelOf(rs)
  {
  }

  method GenerateAnswer(c: Chat, client: CappedClient, retrieval: Retrieval, ghost base: nat) returns (gen: Completion)
    requires client.usage.Valid() && InOrder(client.env, base, client.Done()) && client.calls == |client.responses|
    modifies client, client.usage
    ensures client.usage.Valid() && InOrder(client.env, base, client.Done())
    ensures client.calls == old(client.calls) + 1
    ensures client.responses == WithAnswer(old(client.responses), gen)
    ensures client.sent ==
            old(client.sent) + if gen.CapExceeded? then []
                               else [c.answerPrompt(retrieval.sql, retrieval.columns, retrieval.rows)]
  {
    ghost var before := client.Done();
    assert Owned(before.ledger, before.mine);
    hide InOrder;
    var prompt := c.answerPrompt(retrieval.sql, retrieval.columns, retrieval.rows);
    ghost var id;
    gen, id := client.Complete(prompt, c.maxTokens);
    OneMoreCall(client.env, base, before, client.Done(), prompt, gen, id, Estimate(prompt, c.maxTokens));
  }

  /** The prompts of a turn that replied: those of the attempts, and once the retrieval worked one
      that hands its rows to the model. */
  function PromptsOf(c: Chat, rs: seq<Response>, r: Retrieval): seq<Prompt> {
    PromptsFor(c, rs, |rs|) + if r.ok then [c.answerPrompt(r.sql, r.columns, r.rows)] else []
  }

  /** Every exit settles, whatever the other replicas do meanwhile. Over the cap, after a provider
      error or with a reply: each call made one reservation, all of them have ended, what they
      leave in the tally is the tokens of the recorded answers, and the turn is observed once,
      with those tokens. */
  method AnswerQuestion(c: Chat, usage: LlmUsage, cap: int, env: nat -> CallEnv)
    returns (turn: Turn, seen: Observation, client: CappedClient, ran: seq<string>)
    requires usage.Valid()
    modifies usage
    ensures fresh(client) && client.usage == usage && usage.Valid()
    ensures InOrder(env, |old(usage.calls)|, client.Done())
    ensures |client.sent| <= client.calls <= Budget(c) + 1
    ensures forall h :: Tally(usage.tokensUsed, h) == Tally(usage.start, h)
                          + OthersShare(usage.calls, client.mine, h) + Spent(env, client.responses, h)
    ensures |client.responses| <= |client.sent| <= Budget(c) + 1
    ensures |client.sent| == |client.responses| + if turn.RaisedByProvider? then 1 else 0
    ensures seen.tokensIn == TotalIn(client.responses) && seen.tokensOut == TotalOut(client.responses)
    ensures seen.status == match turn
                           case AbortedOverCap => OverCap
                           case RaisedByProvider => Errored
                           case Replied(x) => if x.retrieval.ok || x.refused then Fine else Errored
    ensures match turn
            case Replied(x) => SaysWhatWasFound(c, client.responses, x)
                               && ran == Executed(c, client.responses[..x.retrieval.attempts])
                               && client.sent == PromptsOf(c, client.responses[..x.retrieval.attempts], x.retrieval)
            case _ => ran == Executed(c, client.responses)
                      && (AllRetried(c, client.responses) || RetrievalOf(c, client.responses).ok)
  {
    ghost var base := |usage.calls|;
    client := new CappedClient(usage, cap, env);
    var retrieved;
    retrieved, ran := RetrieveCatalog(c, client);
    ghost var rs := client.responses;
    ghost var trail := client.Done();
    assert rs[..|rs|] == rs;
    assert InOrder(env, base, trail);
    assert client.sent == PromptsFor(c, rs, |client.sent|);
    hide InOrder, CappedClient.Done, OnTrack, Finished, AllRetried, Executed, RetrievalOf, Followed,
         SaysWhatWasFound, Accounted;
    hide TotalIn, TotalOut, ModelOf, Strip, CatalogTraces, PromptsFor;
    turn := if retrieved.Throttled? then AbortedOverCap else RaisedByProvider;
    var status := if retrieved.Throttled? then OverCap else Errored;
    if retrieved.Returned? {
      ResultMeaning(c, rs);
      var retrieval := retrieved.result;
      if !retrieval.ok {
        status := if retrieval.refused then Fine else Errored;
        var answer := if retrieval.refused then OffTopic else CouldNotLookUp;
        turn := Replied(ChatResult(answer, retrieval.refused, [], retrieval,
                                   ModelUsed(client.responses, retrieval),
                                   TotalIn(client.responses), TotalOut(client.responses)));
        SaysNotAnswered(c, rs, turn.result);
      } else {
        var gen := GenerateAnswer(c, client, retrieval, base);
        if gen.Answered? {
          status := Fine;
          var traces := [SavingsTrace] + CatalogTraces(retrieval.rows);
          turn := Replied(ChatResult(Grounded(Strip(gen.response.text)), false, traces, retrieval,
                                     ModelUsed(client.responses, retrieval),
                                     TotalIn(client.responses), TotalOut(client.responses)));
          SaysAnswered(c, rs, gen.response, turn.result);
        } else {
          turn := if gen.CapExceeded? then AbortedOverCap else RaisedByProvider;
          status := if gen.CapExceeded? then OverCap else Errored;
        }
      }
    }
    seen := Observation(status, TotalIn(client.responses), TotalOut(client.responses));
    SplitTally(usage, env, base, client);
  }

  // ---------------------------------------------------------------- what a turn can do

  lemma TokensDiffer(t: string)
    ensures !("CANNOT_ANSWER" <= t && "NO_QUERY" <= t)
  {
    if "CANNOT_ANSWER" <= t { assert t[0] == "CANNOT_ANSWER"[0]; }
  }

  /** Which words mean what: CANNOT_ANSWER in front, in any case, refuses and NO_QUERY asks for the
      spend summary alone; anything else goes through the gate as it was cleaned, and only what the
      gate returns is run. */
  lemma WordsDecide(c: Chat, k: nat, text: string)
    ensures var t := c.clean(text);
            var a, word := AttemptOf(c, k, text), "CANNOT_ANSWER" <= Upper(t) || "NO_QUERY" <= Upper(t);
            && (a.Refused? <==> "CANNOT_ANSWER" <= Upper(t))
            && (a.SpendOnly? <==> "NO_QUERY" <= Upper(t))
            && (!word ==>
                  match c.gate(t)
                  case Rejected(reason) => a == Unsafe(t, reason)
                  case Passed(sql) =>
                    match c.execute(k, sql)
                    case DbError(message) => a == Failed(sql, Strip(message))
                    case Rows(columns, rows) => a == Found(sql, columns, rows))
  {
    hide Upper, Strip;
    TokensDiffer(Upper(c.clean(text)));
  }

  /** No statement reaches the database that the gate did not return, for SQL the model wrote in
      that very attempt. */
  lemma {:induction false} OnlyGatedSqlRuns(c: Chat, rs: seq<Response>, sql: string) returns (k: nat)
    requires sql in Executed(c, rs)
    ensures k < |rs| && c.gate(c.clean(rs[k].text)) == Passed(sql)
    ensures !("CANNOT_ANSWER" <= Upper(c.clean(rs[k].text))) && !("NO_QUERY" <= Upper(c.clean(rs[k].text)))
  {
    hide Decode, AttemptOf, Upper;
    k := |rs| - 1;
    WordsDecide(c, k, rs[k].text);
    if sql !in RanBy(LastAttempt(c, rs)) { k := OnlyGatedSqlRuns(c, rs[..|rs| - 1], sql); }
  }

  /** A refusal ends the turn: the attempt that refused was the last thing the model was asked,
      nothing it would have run is run, and no answer call follows. */
  lemma RefusalIsFinal(c: Chat, rs: seq<Response>, x: ChatResult)
    requires SaysWhatWasFound(c, rs, x)
    ensures x.refused <==> !x.retrieval.ok && rs != [] && "CANNOT_ANSWER" <= Upper(c.clean(rs[|rs| - 1].text))
                           && |rs| == x.retrieval.attempts
    ensures x.refused ==> x.answer == OffTopic && x.traces == [] && Executed(c, rs) == Executed(c, rs[..|rs| - 1])
  {
    hide AttemptOf, Finished, AllRetried, TotalIn, TotalOut, ModelOf, CatalogTraces, Strip, Upper;
    assert rs[..|rs|] == rs;
    if rs != [] { WordsDecide(c, |rs| - 1, rs[|rs| - 1].text); }
    if !x.retrieval.ok && rs != [] && LastAttempt(c, rs).Refused? { assert RanBy(LastAttempt(c, rs)) == []; }
  }

  /** The gate let the cleaned text through and the database returned rows for it. */
  predicate ReturnsRows(c: Chat, k: nat, text: string) {
    var t := c.clean(text);
    && !("CANNOT_ANSWER" <= Upper(t)) && !("NO_QUERY" <= Upper(t))
    && c.gate(t).Passed? && c.execute(k, c.gate(t).sql).Rows?
  }

  /** An answer call is made exactly when the retrieval stopped on the spend summary alone or on
      rows; blocked SQL and exhausted retries never get one. */
  lemma AnsweredExactly(c: Chat, rs: seq<Response>, x: ChatResult)
    requires SaysWhatWasFound(c, rs, x)
    ensures var n := x.retrieval.attempts;
            && n <= |rs| <= n + 1 && n <= Budget(c)
            && (|rs| == n + 1 <==> n > 0 && ("NO_QUERY" <= Upper(c.clean(rs[n - 1].text))
                                             || ReturnsRows(c, n - 1, rs[n - 1].text)))
            && (|rs| == n + 1 <==> x.answer.Grounded?)
            && (rs != [] ==> x.model == rs[|rs| - 1].model)
    ensures forall k | 0 <= k < x.retrieval.attempts - 1 :: AttemptOf(c, k, rs[k].text).Failed?
  {
    hide AttemptOf, Upper;
    var n := x.retrieval.attempts;
    assert rs[..n] == rs[..n];
    if n > 0 {
      WordsDecide(c, n - 1, rs[n - 1].text);
      forall k | 0 <= k < n - 1 ensures AttemptOf(c, k, rs[k].text).Failed? {
        assert rs[..n][..n - 1][k] == rs[k];
      }
    }
  }

  /** What the retrieval reports is what its last attempt met: the rows the database returned, the
      gate's reason, or the last error with the number of attempts. */
  lemma RetrievalTells(c: Chat, rs: seq<Response>)
    requires Finished(c, rs) && rs != []
    ensures var r, n := RetrievalOf(c, rs), |rs| - 1;
            var t := c.clean(rs[n].text);
            && (r.noQuery <==> "NO_QUERY" <= Upper(t))
            && (r.ok <==> r.noQuery || ReturnsRows(c, n, rs[n].text))
            && (ReturnsRows(c, n, rs[n].text) ==>
                  c.execute(n, c.gate(t).sql) == Rows(r.columns, r.rows) && r.sql == Some(c.gate(t).sql))
            && (!ReturnsRows(c, n, rs[n].text) ==> r.rows == [] && r.columns == [])
            && (!r.ok && !r.refused && c.gate(t).Rejected? ==>
                  r.error == Some(Blocked(c.gate(t).reason)) && r.sql == Some(t))
            && (!r.ok && !r.refused && c.gate(t).Passed? ==>
                  && c.execute(n, c.gate(t).sql).DbError?
                  && r.error == Some(GaveUp(|rs|, Some(Strip(c.execute(n, c.gate(t).sql).message))))
                  && r.sql == Some(c.gate(t).sql))
            && (r.ok || r.refused ==> r.error.None?)
  {
    hide AttemptOf, Upper, Strip, TotalIn, TotalOut, ModelOf, AllRetried;
    WordsDecide(c, |rs| - 1, rs[|rs| - 1].text);
  }

  /** Each retry is told the statement that failed just before it and the database's own words. */
  lemma {:induction false} RetriesTellWhatFailed(c: Chat, rs: seq<Response>, n: nat, k: nat)
    requires k < n <= |rs| + 1 && AllRetried(c, rs[..n - 1])
    ensures |PromptsFor(c, rs, n)| == n
    ensures k == 0 ==> PromptsFor(c, rs, n)[k] == c.sqlPrompt("")
    ensures k > 0 ==>
              var gated := c.gate(c.clean(rs[k - 1].text));
              && gated.Passed? && c.execute(k - 1, gated.sql).DbError?
              && PromptsFor(c, rs, n)[k]
                 == c.sqlPrompt(c.retryContext(gated.sql, Strip(c.execute(k - 1, gated.sql).message)))
  {
    hide AttemptOf, Upper, Strip;
    PromptCount(c, rs, n - 1);
    if k < n - 1 {
      assert rs[..n - 1][..n - 2] == rs[..n - 2];
      RetriesTellWhatFailed(c, rs, n - 1, k);
    } else if k > 0 {
      assert AttemptOf(c, k - 1, rs[..n - 1][k - 1].text).Failed?;
      WordsDecide(c, k - 1, rs[k - 1].text);
    }
  }

  lemma {:induction false} PromptCount(c: Chat, rs: seq<Response>, n: nat)
    requires n <= |rs| + 1
    ensures |PromptsFor(c, rs, n)| == n
  {
    if n > 0 { PromptCount(c, rs, n - 1); }
  }

  /** Giving up on retries happens exactly when the whole budget of attempts ran into database
      errors. */
  lemma GivesUpExactly(c: Chat, rs: seq<Response>)
    requires Finished(c, rs)
    ensures (RetrievalOf(c, rs).error.Some? && RetrievalOf(c, rs).error.value.GaveUp?)
            <==> |rs| == Max(c.maxRetries + 1, 0) && AllRetried(c, rs)
  {
    hide AttemptOf;
    if rs != [] {
      var n := |rs| - 1;
      if AllRetried(c, rs) { assert AttemptOf(c, n, rs[n].text).Failed?; }
      if LastAttempt(c, rs).Failed? {
        forall k | 0 <= k < |rs| ensures AttemptOf(c, k, rs[k].text).Failed? {
          if k < n { assert rs[..n][k] == rs[k]; }
        }
      }
    }
  }

  /** The SQL a retrieval reports, unless it was blocked, is the last statement that ran; every
      attempt but a last one that asked for none has run exactly one. */
  lemma ReportsWhatRan(c: Chat, rs: seq<Response>)
    requires Finished(c, rs) && rs != []
    ensures var ran, r := Executed(c, rs), RetrievalOf(c, rs);
            && |rs| - 1 <= |ran| <= |rs|
            && (r.sql.Some? && (r.error.Some? ==> r.error.value.GaveUp?) <==> |ran| == |rs|)
            && (|ran| == |rs| ==> ran[|ran| - 1] == r.sql.value)
  {
    hide AttemptOf, TotalIn, TotalOut, ModelOf;
    OneRunEach(c, rs[..|rs| - 1]);
  }

  lemma {:induction false} OneRunEach(c: Chat, rs: seq<Response>)
    requires AllRetried(c, rs)
    ensures |Executed(c, rs)| == |rs|
  {
    hide AttemptOf;
    if rs != [] {
      var n := |rs| - 1;
      forall k | 0 <= k < n ensures AttemptOf(c, k, rs[..n][k].text).Failed? {
        assert AttemptOf(c, k, rs[k].text).Failed?;
      }
      OneRunEach(c, rs[..n]);
      assert AttemptOf(c, n, rs[n].text).Failed?;
    }
  }

  /** Within one clock hour, what the tally gained is the tokens the turn reports. */
  lemma {:induction false} SpentIsReported(env: nat -> CallEnv, rs: seq<Response>, h: Hour)
    requires forall k | 0 <= k < |rs| :: env(k).hour == h
    ensures Spent(env, rs, h) == TotalIn(rs) + TotalOut(rs)
    ensures forall g | g != h :: Spent(env, rs, g) == 0
    ensures (forall k | 0 <= k < |rs| :: rs[k].tokensIn == 0) ==> TotalIn(rs) == 0
    ensures (forall k | 0 <= k < |rs| :: rs[k].tokensOut == 0) ==> TotalOut(rs) == 0
  {
    if rs != [] { SpentIsReported(env, rs[..|rs| - 1], h); }
  }
}
