// What one call of an open controller does, written out: every decision, every
// figure in its record, and the answer, in the numbers of the configuration.
module SpendOutcomes {
  import opened Basics
  import opened JsonTree
  import opened SpendArithmetic
  import opened SpendControl

  // The least whole number of micro-USD that covers these tokens at these rates
  // per million.
  predicate Covers(cost: nat, inputTokens: nat, inputRate: nat, outputTokens: nat, outputRate: nat) {
    (cost - 1) * 1_000_000 < inputTokens * inputRate + outputTokens * outputRate <= cost * 1_000_000
  }

  // The least token count whose characters cover the text.
  predicate Estimates(tokens: nat, characters: nat, charactersPerToken: real) {
    (tokens as real - 1.0) * charactersPerToken < characters as real <= tokens as real * charactersPerToken
  }

  // The figures the source works with for a call.
  predicate Figures(config: Config, call: Call, estimated: nat, worst: nat) {
    && Estimates(estimated, call.characters, config.calibration.charactersPerToken)
    && Covers(worst, estimated, config.worstCasePricing.inputMicrousdPerMillionTokens,
              config.outputTokenCap, config.worstCasePricing.outputMicrousdPerMillionTokens)
  }

  lemma CoverIsUnique(a: nat, b: nat, inputTokens: nat, inputRate: nat, outputTokens: nat, outputRate: nat)
    requires Covers(a, inputTokens, inputRate, outputTokens, outputRate)
    requires Covers(b, inputTokens, inputRate, outputTokens, outputRate)
    ensures a == b
  {
  }

  lemma CostCovers(pricing: Pricing, inputTokens: nat, outputTokens: nat)
    ensures Covers(CostMicrousd(pricing, inputTokens, outputTokens), inputTokens, pricing.inputMicrousdPerMillionTokens,
                   outputTokens, pricing.outputMicrousdPerMillionTokens)
  {
  }

  lemma EstimateEstimates(characters: nat, calibration: Calibration)
    requires calibration.Valid()
    ensures Estimates(EstimateInputTokens(characters, calibration), characters, calibration.charactersPerToken)
  {
    var tokens: int := EstimateInputTokens(characters, calibration);
    EstimateCoversText(characters, calibration, tokens);
    EstimateCoversText(characters, calibration, tokens - 1);
    assert (tokens - 1) as real == tokens as real - 1.0;
  }

  lemma EstimateIsLeast(a: nat, b: nat, characters: nat, c: real)
    requires c > 0.0 && Estimates(a, characters, c) && Estimates(b, characters, c)
    ensures b <= a
  {
    if a < b {
      MulMonotone(a as real, b as real - 1.0, c);
    }
  }

  lemma EstimateIsUnique(a: nat, b: nat, characters: nat, c: real)
    requires c > 0.0 && Estimates(a, characters, c) && Estimates(b, characters, c)
    ensures a == b
  {
    EstimateIsLeast(a, b, characters, c);
    EstimateIsLeast(b, a, characters, c);
  }

  lemma FiguresAreTheSource(config: Config, call: Call, estimated: nat, worst: nat)
    requires config.Valid() && Figures(config, call, estimated, worst)
    ensures estimated == EstimateInputTokens(call.characters, config.calibration) && worst == config.WorstCase(estimated)
  {
    EstimateEstimates(call.characters, config.calibration);
    EstimateIsUnique(estimated, EstimateInputTokens(call.characters, config.calibration), call.characters,
                     config.calibration.charactersPerToken);
    CostCovers(config.worstCasePricing, estimated, config.outputTokenCap);
  }

  // Every call has such figures.
  lemma FiguresExist(config: Config, call: Call)
    requires config.Valid()
    ensures exists estimated, worst :: Figures(config, call, estimated, worst)
  {
    var estimated := EstimateInputTokens(call.characters, config.calibration);
    EstimateEstimates(call.characters, config.calibration);
    CostCovers(config.worstCasePricing, estimated, config.outputTokenCap);
    assert Figures(config, call, estimated, config.WorstCase(estimated));
  }

  predicate LetThrough(config: Config, s: Controller, worst: nat) {
    worst <= config.limits.maxCallMicrousd && s.total + worst <= config.limits.maxRunMicrousd
  }

  // The books after a call: one more call, one more record, and the failure, if
  // any, as the reason for being closed.
  predicate Booked(config: Config, before: Controller, after: Controller, failure: Option<Reason>, charged: nat, record: Record) {
    && after.closed == failure && after.calls == before.calls + 1 && after.total == before.total + charged
    && after.ledger == before.ledger + [record]
    && record.callIndex == after.calls && record.failure == failure
    && record.chargedMicrousd == charged && record.runningTotalMicrousd == after.total
    && record.extra.Keys == config.extraLedgerFields
  }

  predicate Unanswered(record: Record, estimated: nat, worst: nat) {
    && record.estimatedInputTokens == estimated && record.worstCaseMicrousd == worst
    && record.actualInputTokens == record.outputTokens == None && record.responseId == None
    && forall name :: name in record.extra ==> record.extra[name] == Null
  }

  // A call beyond a limit is refused: it costs nothing and closes the
  // controller, for the call limit first.
  lemma RefusedCall(config: Config, s: Controller, call: Call, estimated: nat, worst: nat) returns (record: Record)
    requires config.Valid() && s.closed.None? && Figures(config, call, estimated, worst) && !LetThrough(config, s, worst)
    ensures var (after, r) := RunOne(config, s, call);
            var reason := if worst > config.limits.maxCallMicrousd then WorstCaseExceedsCallLimit
                          else WorstCaseExceedsRemainingRunBudget;
            && r == Err(FailedClosed(s.calls + 1, reason))
            && Booked(config, s, after, Some(reason), 0, record) && Unanswered(record, estimated, worst)
  {
    FiguresAreTheSource(config, call, estimated, worst);
    var after := RunOne(config, s, call).0;
    record := after.ledger[|s.ledger|];
  }

  // A provider failure is charged with the worst case.
  lemma FailedCall(config: Config, s: Controller, call: Call, estimated: nat, worst: nat, error: string)
    returns (record: Record)
    requires config.Valid() && s.closed.None? && Figures(config, call, estimated, worst) && LetThrough(config, s, worst)
    requires call.outcome == Raised(error)
    ensures var (after, r) := RunOne(config, s, call);
            && r == Err(FailedClosed(s.calls + 1, ProviderCallFailed(error)))
            && Booked(config, s, after, Some(ProviderCallFailed(error)), worst, record) && Unanswered(record, estimated, worst)
  {
    FiguresAreTheSource(config, call, estimated, worst);
    var after := RunOne(config, s, call).0;
    record := after.ledger[|s.ledger|];
  }

  // With details on: they were returned, name exactly the extra fields, and
  // each is null or a non-negative integer.
  predicate DetailsInOrder(config: Config, details: UsageDetails) {
    config.usageDetails ==>
      && details.DetailsReturned? && details.values.Keys == config.extraLedgerFields
      && forall name | name in details.values ::
           details.values[name] == Null || (details.values[name].Int? && 0 <= details.values[name].i)
  }

  predicate WithinTolerance(config: Config, estimated: nat, response: Response) {
    response.inputTokens as real <= estimated as real * (1.0 + config.calibration.tolerance)
  }

  predicate RecordedAnswer(config: Config, record: Record, response: Response, estimated: nat, worst: nat) {
    && record.estimatedInputTokens == estimated && record.worstCaseMicrousd == worst
    && record.actualInputTokens == Some(response.inputTokens) && record.outputTokens == Some(response.outputTokens)
    && record.responseId == Some(response.responseId)
    && forall name :: name in record.extra ==>
         record.extra[name] == if config.usageDetails && DetailsInOrder(config, response.details) && name in response.details.values
                               then response.details.values[name] else Null
  }

  // An answered call costs what its tokens cost.  It succeeds if and only if
  // its details are in order, the run limit holds, the input is within the
  // tolerance and the output was accepted; otherwise the first of the four that
  // fails closes the controller.
  lemma AnsweredCall(config: Config, s: Controller, call: Call, estimated: nat, worst: nat, response: Response, cost: nat)
    returns (record: Record)
    requires config.Valid() && s.closed.None? && Figures(config, call, estimated, worst) && LetThrough(config, s, worst)
    requires call.outcome == Responded(response)
    requires Covers(cost, response.inputTokens, config.pricing.inputMicrousdPerMillionTokens,
                    response.outputTokens, config.pricing.outputMicrousdPerMillionTokens)
    ensures var (after, r) := RunOne(config, s, call);
            var fits := s.total + cost <= config.limits.maxRunMicrousd;
            && (r == Ok(response) <==>
                  DetailsInOrder(config, response.details) && fits && WithinTolerance(config, estimated, response)
                  && response.outputAccepted)
            && (r != Ok(response) ==>
                  var reason := if !DetailsInOrder(config, response.details) then InvalidUsageDetails
                                else if !fits then RunLimitExceededAfterCall
                                else if !WithinTolerance(config, estimated, response) then InputTokenEstimateExceeded
                                else InvalidOutput;
                  r == Err(FailedClosed(s.calls + 1, reason)) && after.closed == Some(reason))
            && Booked(config, s, after, after.closed, cost, record)
            && (r == Ok(response) ==> after.closed == None)
            && RecordedAnswer(config, record, response, estimated, worst)
  {
    FiguresAreTheSource(config, call, estimated, worst);
    CostCovers(config.pricing, response.inputTokens, response.outputTokens);
    CoverIsUnique(cost, config.Charge(response), response.inputTokens, config.pricing.inputMicrousdPerMillionTokens,
                  response.outputTokens, config.pricing.outputMicrousdPerMillionTokens);
    var after := RunOne(config, s, call).0;
    record := after.ledger[|s.ledger|];
    DetailsAgree(config, response.details);
  }

  lemma DetailsAgree(config: Config, details: UsageDetails)
    ensures DetailsInOrder(config, details) <==> !config.usageDetails || ValidDetails(config, details)
  {
    if ValidDetails(config, details) {
      forall name | name in details.values
        ensures details.values[name] == Null || (details.values[name].Int? && 0 <= details.values[name].i)
      {
      }
    }
  }

  // The record of a success carries the details that the call gave.
  lemma SuccessKeepsItsDetails(config: Config, s: Controller, call: Call, response: Response, name: string)
    requires config.Valid() && s.closed.None? && RunOne(config, s, call).1 == Ok(response)
    requires config.usageDetails && name in config.extraLedgerFields
    ensures var ledger := RunOne(config, s, call).0.ledger;
            && |ledger| == |s.ledger| + 1 && response.details.DetailsReturned? && name in response.details.values
            && name in ledger[|s.ledger|].extra && ledger[|s.ledger|].extra[name] == response.details.values[name]
  {
    FiguresExist(config, call);
    var estimated, worst :| Figures(config, call, estimated, worst);
    FiguresAreTheSource(config, call, estimated, worst);
    CostCovers(config.pricing, response.inputTokens, response.outputTokens);
    var record := AnsweredCall(config, s, call, estimated, worst, response, config.Charge(response));
  }

  // A closed controller answers every call with the reason it was closed for.
  lemma ClosedCall(config: Config, s: Controller, call: Call, reason: Reason)
    requires config.Valid() && s.closed == Some(reason)
    ensures RunOne(config, s, call) == (s, Err(AlreadyClosed(reason)))
  {
  }
}
