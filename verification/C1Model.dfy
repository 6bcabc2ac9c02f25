// The older C1 model, which keeps its own copy of the spend control, and the
// proof that it is the newer controller with its options off.
module C1Model {
  import opened Basics
  import opened JsonTree
  import opened SpendArithmetic
  import S = SpendControl

  const C1_MAX_TOKENS: nat := 4096
  const CHARACTERS_PER_TOKEN: real := 2.1
  const INPUT_TOKEN_ESTIMATE_TOLERANCE: real := 0.15
  // Length of the system instruction plus the compact output schema.
  const WRAPPER_CHARACTERS: nat := 74 + 278
  const CALL_LEDGER_SCHEMA_VERSION := "c1-call-ledger/v1"
  const MODEL_PROVIDER := "anthropic"
  const MODEL_ID := "claude-sonnet-5-5"
  const CONFIGURATION_VERSION := "C1/v1"

  datatype C1Response = C1Response(inputTokens: nat, outputTokens: nat, responseId: string, output: map<string, Json>)

  datatype C1Outcome = Raised(error: string) | Responded(response: C1Response)

  datatype C1Reason =
    | ConcurrentCall
    | WorstCaseExceedsCallLimit
    | WorstCaseExceedsRemainingRunBudget
    | ProviderCallFailed(error: string)
    | RunLimitExceededAfterCall
    | InputTokenEstimateExceeded
    | InvalidB0Output

  datatype C1Rejection = Overlapping | AlreadyClosed(reason: C1Reason) | FailedClosed(callIndex: nat, reason: C1Reason)

  datatype C1Record = C1Record(
    callIndex: nat,
    failure: Option<C1Reason>,
    estimatedInputTokens: nat,
    response: Option<C1Response>,
    worstCaseMicrousd: nat,
    chargedMicrousd: nat,
    runningTotalMicrousd: nat)

  // The answer handed to the B0 executor.
  datatype C1Answer = C1Answer(content: map<string, Json>, costMicrousd: nat)

  function EstimatePrompt(prompt: string): nat {
    Ceiling((|prompt| + WRAPPER_CHARACTERS) as real / CHARACTERS_PER_TOKEN)
  }

  predicate ExceedsEstimateTolerance(estimated: nat, actual: nat) {
    actual as real > estimated as real * (1.0 + INPUT_TOKEN_ESTIMATE_TOLERANCE)
  }

  predicate DistinctTexts(value: Json) {
    && value.Arr?
    && (forall i :: 0 <= i < |value.items| ==> value.items[i].Str? && !Blank(value.items[i].s))
    && Distinct(value.items)
  }

  predicate ValidB0Output(output: map<string, Json>) {
    && output.Keys == {"boundary", "ground_truth_ids", "source_references"}
    && output["boundary"].Str? && !Blank(output["boundary"].s)
    && DistinctTexts(output["ground_truth_ids"])
    && DistinctTexts(output["source_references"])
  }

  class C1B0Model {
    const pricing: Pricing
    const limits: SpendLimits
    var locked: bool
    var closedReason: Option<C1Reason>
    var callCount: nat
    var runningTotalMicrousd: nat
    var ledger: seq<C1Record>

    ghost function Snapshot(): C1State
      reads this
    {
      C1State(closedReason, callCount, runningTotalMicrousd, ledger)
    }

    constructor (pricing: Pricing, limits: SpendLimits)
      requires limits.Valid()
      ensures this.pricing == pricing && this.limits == limits && !locked && Snapshot() == C1_OPEN
    {
      this.pricing, this.limits := pricing, limits;
      locked, closedReason, callCount, runningTotalMicrousd, ledger := false, None, 0, 0, [];
    }

    method Complete(prompt: string, outcome: C1Outcome) returns (r: Result<C1Answer, C1Rejection>)
      modifies this
      ensures locked == old(locked)
      ensures old(locked) ==>
        r == Err(Overlapping) && Snapshot() == old(Snapshot()).(closed := Some(ConcurrentCall))
      ensures !old(locked) ==> (Snapshot(), r) == CompleteOne(pricing, limits, old(Snapshot()), C1Call(prompt, outcome))
    {
      if locked {
        closedReason := Some(ConcurrentCall);
        return Err(Overlapping);
      }
      locked := true;
      r := CompleteUnlocked(prompt, outcome);
      locked := false;
    }

    method CompleteUnlocked(prompt: string, outcome: C1Outcome) returns (r: Result<C1Answer, C1Rejection>)
      modifies this`closedReason, this`callCount, this`runningTotalMicrousd, this`ledger
      ensures (Snapshot(), r) == CompleteOne(pricing, limits, old(Snapshot()), C1Call(prompt, outcome))
    {
      if closedReason.Some? {
        return Err(AlreadyClosed(closedReason.value));
      }
      callCount := callCount + 1;
      var estimated := EstimatePrompt(prompt);
      var worst := CostMicrousd(pricing, estimated, C1_MAX_TOKENS);
      if worst > limits.maxCallMicrousd {
        r := Fail(estimated, worst, None, WorstCaseExceedsCallLimit, 0);
        return;
      }
      if runningTotalMicrousd + worst > limits.maxRunMicrousd {
        r := Fail(estimated, worst, None, WorstCaseExceedsRemainingRunBudget, 0);
        return;
      }
      if outcome.Raised? {
        r := Fail(estimated, worst, None, ProviderCallFailed(outcome.error), worst);
        return;
      }
      var response := outcome.response;
      var charged := CostMicrousd(pricing, response.inputTokens, response.outputTokens);
      if runningTotalMicrousd + charged > limits.maxRunMicrousd {
        r := Fail(estimated, worst, Some(response), RunLimitExceededAfterCall, charged);
        return;
      }
      if ExceedsEstimateTolerance(estimated, response.inputTokens) {
        r := Fail(estimated, worst, Some(response), InputTokenEstimateExceeded, charged);
        return;
      }
      if !ValidB0Output(response.output) {
        r := Fail(estimated, worst, Some(response), InvalidB0Output, charged);
        return;
      }
      runningTotalMicrousd := runningTotalMicrousd + charged;
      ledger := ledger + [C1Record(callCount, None, estimated, Some(response), worst, charged, runningTotalMicrousd)];
      return Ok(C1Answer(response.output, charged));
    }

    method Fail(estimated: nat, worst: nat, response: Option<C1Response>, reason: C1Reason, charged: nat)
      returns (r: Result<C1Answer, C1Rejection>)
      modifies this`closedReason, this`runningTotalMicrousd, this`ledger
      ensures closedReason == Some(reason)
      ensures runningTotalMicrousd == old(runningTotalMicrousd) + charged
      ensures ledger == old(ledger)
        + [C1Record(callCount, Some(reason), estimated, response, worst, charged, runningTotalMicrousd)]
      ensures r == Err(FailedClosed(callCount, reason))
    {
      closedReason := Some(reason);
      runningTotalMicrousd := runningTotalMicrousd + charged;
      ledger := ledger + [C1Record(callCount, Some(reason), estimated, response, worst, charged, runningTotalMicrousd)];
      return Err(FailedClosed(callCount, reason));
    }
  }

  // ---- What a call does, and whole runs ----

  datatype C1State = C1State(closed: Option<C1Reason>, calls: nat, total: nat, ledger: seq<C1Record>)

  const C1_OPEN := C1State(None, 0, 0, [])

  datatype C1Call = C1Call(prompt: string, outcome: C1Outcome)

  // Failure, charge and response of an admitted or refused call.
  function Settle(pricing: Pricing, limits: SpendLimits, total: nat, estimated: nat, outcome: C1Outcome)
    : (Option<C1Reason>, nat, Option<C1Response>)
  {
    var worst := CostMicrousd(pricing, estimated, C1_MAX_TOKENS);
    if worst > limits.maxCallMicrousd then (Some(WorstCaseExceedsCallLimit), 0, None)
    else if total + worst > limits.maxRunMicrousd then (Some(WorstCaseExceedsRemainingRunBudget), 0, None)
    else match outcome
      case Raised(error) => (Some(ProviderCallFailed(error)), worst, None)
      case Responded(response) =>
        var charged := CostMicrousd(pricing, response.inputTokens, response.outputTokens);
        var failure :=
          if total + charged > limits.maxRunMicrousd then Some(RunLimitExceededAfterCall)
          else if ExceedsEstimateTolerance(estimated, response.inputTokens) then Some(InputTokenEstimateExceeded)
          else if !ValidB0Output(response.output) then Some(InvalidB0Output)
          else None;
        (failure, charged, Some(response))
  }

  function CompleteOne(pricing: Pricing, limits: SpendLimits, s: C1State, call: C1Call)
    : (C1State, Result<C1Answer, C1Rejection>)
  {
    if s.closed.Some? then (s, Err(AlreadyClosed(s.closed.value)))
    else
      var estimated := EstimatePrompt(call.prompt);
      var (failure, charged, response) := Settle(pricing, limits, s.total, estimated, call.outcome);
      var (index, total) := (s.calls + 1, s.total + charged);
      var record := C1Record(index, failure, estimated, response,
                             CostMicrousd(pricing, estimated, C1_MAX_TOKENS), charged, total);
      (C1State(failure, index, total, s.ledger + [record]),
       if failure.Some? then Err(FailedClosed(index, failure.value))
       else Ok(C1Answer(response.value.output, charged)))
  }

  function CompleteAll(pricing: Pricing, limits: SpendLimits, calls: seq<C1Call>): C1State {
    if calls == [] then C1_OPEN
    else CompleteOne(pricing, limits, CompleteAll(pricing, limits, calls[..|calls| - 1]), calls[|calls| - 1]).0
  }

  // ---- The newer controller with its options off ----

  function Twin(pricing: Pricing, limits: SpendLimits): S.Config {
    S.Config(pricing, pricing, limits, Calibration(CHARACTERS_PER_TOKEN, INPUT_TOKEN_ESTIMATE_TOLERANCE),
             C1_MAX_TOKENS, {}, false)
  }

  function TwinResponse(r: C1Response): S.Response {
    S.Response(r.inputTokens, r.outputTokens, r.responseId, S.DetailsRaised, ValidB0Output(r.output))
  }

  // The same call, with the prompt given by its length and the B0 output check
  // as the validator.
  function TwinCall(call: C1Call): S.Call {
    S.Call(|call.prompt| + WRAPPER_CHARACTERS,
           match call.outcome
           case Raised(error) => S.Raised(error)
           case Responded(r) => S.Responded(TwinResponse(r)))
  }

  function TwinReason(reason: C1Reason): S.Reason {
    match reason
    case ConcurrentCall => S.ConcurrentCall
    case WorstCaseExceedsCallLimit => S.WorstCaseExceedsCallLimit
    case WorstCaseExceedsRemainingRunBudget => S.WorstCaseExceedsRemainingRunBudget
    case ProviderCallFailed(error) => S.ProviderCallFailed(error)
    case RunLimitExceededAfterCall => S.RunLimitExceededAfterCall
    case InputTokenEstimateExceeded => S.InputTokenEstimateExceeded
    case InvalidB0Output => S.InvalidOutput
  }

  function TwinFailure(failure: Option<C1Reason>): Option<S.Reason> {
    match failure
    case Some(reason) => Some(TwinReason(reason))
    case None => None
  }

  function TwinRecord(r: C1Record): S.Record {
    S.Record(r.callIndex, TwinFailure(r.failure), r.estimatedInputTokens,
             if r.response.Some? then Some(r.response.value.inputTokens) else None,
             if r.response.Some? then Some(r.response.value.outputTokens) else None,
             if r.response.Some? then Some(r.response.value.responseId) else None,
             r.worstCaseMicrousd, r.chargedMicrousd, r.runningTotalMicrousd, map[])
  }

  ghost predicate Related(c: C1State, s: S.Controller) {
    && s.closed == TwinFailure(c.closed)
    && s.calls == c.calls && s.total == c.total
    && |s.ledger| == |c.ledger|
    && forall i :: 0 <= i < |c.ledger| ==> s.ledger[i] == TwinRecord(c.ledger[i])
  }

  // One step of the bisimulation: from related states the same call is
  // accepted or rejected alike, for the same reason, and leaves related states.
  lemma StepsAgree(pricing: Pricing, limits: SpendLimits, c: C1State, s: S.Controller, call: C1Call)
    requires limits.Valid() && Related(c, s)
    ensures var (c', rc) := CompleteOne(pricing, limits, c, call);
            var (s', rs) := S.RunOne(Twin(pricing, limits), s, TwinCall(call));
            && Related(c', s')
            && (match (rc, rs)
                case (Ok(answer), Ok(response)) =>
                  call.outcome.Responded? && response == TwinResponse(call.outcome.response)
                  && answer == C1Answer(call.outcome.response.output, s'.total - s.total)
                case (Err(AlreadyClosed(x)), Err(AlreadyClosed(y))) => y == TwinReason(x)
                case (Err(FailedClosed(i, x)), Err(FailedClosed(j, y))) => i == j && y == TwinReason(x)
                case _ => false)
  {
    var config := Twin(pricing, limits);
    var estimated := EstimatePrompt(call.prompt);
    var (failure, charged, response) := Settle(pricing, limits, c.total, estimated, call.outcome);
    var d := S.Decide(config, s.total, estimated, TwinCall(call).outcome);
    assert d.failure == TwinFailure(failure) && d.charged == charged;
    assert S.Extra(config, d) == map[];
  }

  // Whole runs: every sequence of prompts and provider outcomes takes the two
  // copies through related states.
  lemma {:induction false} TwinsAgree(pricing: Pricing, limits: SpendLimits, calls: seq<C1Call>)
    requires limits.Valid()
    ensures Related(CompleteAll(pricing, limits, calls),
                    S.RunAll(Twin(pricing, limits), S.OPEN, seq(|calls|, i requires 0 <= i < |calls| => TwinCall(calls[i]))))
  {
    if calls != [] {
      var before := calls[..|calls| - 1];
      TwinsAgree(pricing, limits, before);
      var twins := seq(|calls|, i requires 0 <= i < |calls| => TwinCall(calls[i]));
      assert twins[..|calls| - 1] == seq(|before|, i requires 0 <= i < |before| => TwinCall(before[i]));
      StepsAgree(pricing, limits, CompleteAll(pricing, limits, before),
                 S.RunAll(Twin(pricing, limits), S.OPEN, twins[..|calls| - 1]), calls[|calls| - 1]);
    }
  }

  function C1Charges(ledger: seq<C1Record>): nat {
    if ledger == [] then 0 else C1Charges(ledger[..|ledger| - 1]) + ledger[|ledger| - 1].chargedMicrousd
  }

  // The ledger accounts for the whole of the controller's total, call by call.
  lemma {:induction false} LedgerAccountsForTotal(pricing: Pricing, limits: SpendLimits, calls: seq<C1Call>)
    ensures var s := CompleteAll(pricing, limits, calls);
            C1Charges(s.ledger) == s.total && |s.ledger| == s.calls
  {
    if calls != [] {
      LedgerAccountsForTotal(pricing, limits, calls[..|calls| - 1]);
      var before := CompleteAll(pricing, limits, calls[..|calls| - 1]);
      var s := CompleteAll(pricing, limits, calls);
      if before.closed.None? {
        assert s.ledger[..|s.ledger| - 1] == before.ledger;
      }
    }
  }
}
