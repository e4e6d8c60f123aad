/** What the provider side of a model call looks like to the callers (app/llm/base.py). */
module Llm {
  import opened Common
  import opened TokenBudget

  datatype Prompt = Prompt(system: string, user: string)

  datatype Response = Response(text: string, model: string, tokensIn: nat, tokensOut: nat)

  datatype Reply = Answers(response: Response) | Raises

  /** The clock's hour when a call reserves, and what the provider then does. */
  datatype CallEnv = CallEnv(hour: Hour, reply: Reply)

  function TokensOf(r: Response): nat { r.tokensIn + r.tokensOut }

  function ApproxTokens(text: string): (r: nat)
    ensures r == 0 <==> text == ""
    ensures 4 * r <= |text| + 3 && |text| <= 4 * r + 3
  {
    if text == "" then 0 else Max(1, |text| / 4)
  }

  /** The worst case a call reserves: the prompt in, and its whole output budget. */
  function Estimate(p: Prompt, maxTokens: nat): (r: nat)
    ensures r >= maxTokens && (r == maxTokens <==> p.system == "" && p.user == "")
    ensures 4 * (r - maxTokens) <= |p.system| + |p.user| + 6 && |p.system| + |p.user| <= 4 * (r - maxTokens) + 6
  {
    ApproxTokens(p.system) + ApproxTokens(p.user) + maxTokens
  }

  /** How a budgeted call comes out for its caller. */
  datatype Completion = Answered(response: Response) | CapExceeded | ProviderRaised

  function Outcome(admitted: bool, reply: Reply): Completion {
    if !admitted then CapExceeded
    else match reply { case Answers(response) => Answered(response) case Raises => ProviderRaised }
  }

  /** How its reservation ends. */
  function Ending(r: Completion, hour: Hour, estimate: nat): Call {
    match r
    case Answered(response) => Settled(hour, estimate, TokensOf(response))
    case CapExceeded => TakenBack(hour, estimate)
    case ProviderRaised => Released(hour, estimate)
  }

  lemma OutcomeOf(reply: Reply)
    ensures Outcome(false, reply) == CapExceeded && !Outcome(true, reply).CapExceeded?
  {
  }

  lemma EndingOf(hour: Hour, estimate: nat)
    ensures Ending(CapExceeded, hour, estimate) == TakenBack(hour, estimate)
  {
  }

  /** What it leaves in the tally of an hour. */
  function Left(r: Completion, hour: Hour, h: Hour): nat {
    if r.Answered? && h == hour then TokensOf(r.response) else 0
  }

  lemma EndingLeaves(r: Completion, hour: Hour, estimate: nat, calls: seq<Call>, mine: set<nat>, id: nat, h: Hour)
    requires id < |calls| && id !in mine && calls[id] == Ending(r, hour, estimate)
    ensures Ended(calls[id]) && Share(calls, mine + {id}, h) == Share(calls, mine, h) + Left(r, hour, h)
  {
    ShareAdd(calls, mine, id, h);
  }

  /** How both clients settle an admitted call: release when the provider raises, else reconcile
      to the tokens it reports. */
  method Settle(usage: LlmUsage, reservation: Reservation, reply: Reply) returns (r: Completion)
    requires usage.Valid() && usage.Holds(reservation)
    modifies usage
    ensures usage.Valid() && usage.gaps == old(usage.gaps) && r == Outcome(true, reply)
    ensures usage.calls ==
            old(usage.calls)[reservation.id := Ending(r, reservation.hour, reservation.estimate)]
  {
    hide LlmUsage.Valid, Apply, Exec, AddTo;
    match reply
    case Raises =>
      var _ := usage.Release(reservation);
      r := ProviderRaised;
    case Answers(response) =>
      var _ := usage.Reconcile(reservation, TokensOf(response));
      r := Answered(response);
  }
}
