// The C1 controller and its ledger lines in plain figures, and which lines the
// provenance accepts.
module LedgerContents {
  import opened Basics
  import opened JsonTree
  import opened SpendArithmetic
  import opened C1Model
  import opened RunProvenance

  // ---- The C1 configuration ----

  // 2.1 characters a token, for the prompt and the 352 characters around it.
  lemma PromptIsEstimated(prompt: string, tokens: nat)
    ensures EstimatePrompt(prompt) <= tokens <==> 10 * (|prompt| + 352) <= 21 * tokens
  {
    var n := |prompt| + 352;
    CeilingIsLeast(n as real / 2.1, tokens);
    assert n as real / 2.1 <= tokens as real <==> n as real <= tokens as real * 2.1;
    assert tokens as real * 2.1 == (21 * tokens) as real / 10.0;
  }

  // Fifteen per cent more input than estimated is tolerated.
  lemma InputIsTolerated(estimated: nat, actual: nat)
    ensures ExceedsEstimateTolerance(estimated, actual) <==> 100 * actual > 115 * estimated
  {
    assert estimated as real * 1.15 == (115 * estimated) as real / 100.0;
    assert actual as real == (100 * actual) as real / 100.0;
  }

  predicate ListOfTexts(j: Json) {
    && j.Arr? && (forall i :: 0 <= i < |j.items| ==> j.items[i].Str? && Strip(j.items[i].s) != "")
    && forall i, k :: 0 <= i < k < |j.items| ==> j.items[i] != j.items[k]
  }

  // A B0 observation: a boundary, and two lists of different, non-blank texts.
  lemma OutputExactly(output: map<string, Json>)
    ensures ValidB0Output(output) <==>
            && output.Keys == {"boundary", "ground_truth_ids", "source_references"}
            && output["boundary"].Str? && Strip(output["boundary"].s) != ""
            && ListOfTexts(output["ground_truth_ids"]) && ListOfTexts(output["source_references"])
  {
  }

  // ---- Answers of the C1 controller ----

  // The least whole number of micro-USD for these tokens.
  predicate Priced(cost: nat, pricing: Pricing, inputTokens: nat, outputTokens: nat) {
    (cost - 1) * 1_000_000
    < inputTokens * pricing.inputMicrousdPerMillionTokens + outputTokens * pricing.outputMicrousdPerMillionTokens
    <= cost * 1_000_000
  }

  predicate Proper(response: C1Response) {
    && response.output.Keys == {"boundary", "ground_truth_ids", "source_references"}
    && response.output["boundary"].Str? && Strip(response.output["boundary"].s) != ""
    && ListOfTexts(response.output["ground_truth_ids"]) && ListOfTexts(response.output["source_references"])
  }

  // An open controller answers a prompt exactly when the worst case for the
  // estimate and 4096 tokens is within both limits, the provider answered, the
  // run limit holds, the input is within the tolerance and the output is proper.
  lemma C1AnswersExactly(pricing: Pricing, limits: SpendLimits, s: C1State, call: C1Call, estimated: nat, worst: nat)
    requires s.closed == None
    requires forall tokens: nat :: estimated <= tokens <==> 10 * (|call.prompt| + 352) <= 21 * tokens
    requires Priced(worst, pricing, estimated, 4096)
    ensures var (after, r) := CompleteOne(pricing, limits, s, call);
            && (r.Ok? <==>
                  && worst <= limits.maxCallMicrousd && s.total + worst <= limits.maxRunMicrousd
                  && call.outcome.Responded?
                  && after.total <= limits.maxRunMicrousd
                  && 100 * call.outcome.response.inputTokens <= 115 * estimated && Proper(call.outcome.response))
            && (r.Ok? ==>
                  && r.value == C1Answer(call.outcome.response.output, after.total - s.total) && after.closed == None)
            && (worst <= limits.maxCallMicrousd && s.total + worst <= limits.maxRunMicrousd && call.outcome.Responded? ==>
                  && after.total >= s.total
                  && Priced(after.total - s.total, pricing, call.outcome.response.inputTokens, call.outcome.response.outputTokens))
            && |after.ledger| == |s.ledger| + 1 && after.ledger[..|s.ledger|] == s.ledger
            && var record := after.ledger[|s.ledger|];
               && record.callIndex == s.calls + 1 == after.calls && record.estimatedInputTokens == estimated
               && record.worstCaseMicrousd == worst && record.chargedMicrousd == after.total - s.total
               && record.runningTotalMicrousd == after.total && record.failure == after.closed
               && record.response == if worst <= limits.maxCallMicrousd && s.total + worst <= limits.maxRunMicrousd
                                        && call.outcome.Responded? then Some(call.outcome.response) else None
  {
    EstimateIs(call.prompt, estimated);
    if call.outcome.Responded? {
      InputIsTolerated(estimated, call.outcome.response.inputTokens);
      OutputExactly(call.outcome.response.output);
    }
  }

  lemma EstimateIs(prompt: string, estimated: nat)
    requires forall tokens: nat :: estimated <= tokens <==> 10 * (|prompt| + 352) <= 21 * tokens
    ensures EstimatePrompt(prompt) == estimated
  {
    PromptIsEstimated(prompt, estimated);
    PromptIsEstimated(prompt, EstimatePrompt(prompt));
    assert estimated <= estimated && EstimatePrompt(prompt) <= EstimatePrompt(prompt);
  }

  // ---- Ledger lines ----

  // The line of a call, entry by entry.
  lemma LineSays(pricing: Pricing, limits: SpendLimits, r: C1Record)
    ensures var line := LedgerLine(pricing, limits, r);
            && line.Get("schema_version") == Str("c1-call-ledger/v1") && line.Get("provider") == Str("anthropic")
            && line.Get("pricing_version") == Str(pricing.version)
            && line.Get("call_index") == Int(r.callIndex)
            && line.Get("outcome") == Str(if r.failure == None then "succeeded" else "failed")
            && line.Get("worst_case_microusd") == Int(r.worstCaseMicrousd)
            && line.Get("charged_microusd") == Int(r.chargedMicrousd)
            && line.Get("running_total_microusd") == Int(r.runningTotalMicrousd)
            && line.Get("max_call_microusd") == Int(limits.maxCallMicrousd)
            && line.Get("max_run_microusd") == Int(limits.maxRunMicrousd)
  {
  }

  lemma LineSaysTokens(pricing: Pricing, limits: SpendLimits, r: C1Record)
    ensures var line := LedgerLine(pricing, limits, r);
            && line.Get("estimated_input_tokens") == Int(r.estimatedInputTokens)
            && (r.response == None ==>
                  line.Get("actual_input_tokens") == line.Get("output_tokens") == line.Get("response_id") == Null)
            && (r.response.Some? ==>
                  && line.Get("actual_input_tokens") == Int(r.response.value.inputTokens)
                  && line.Get("output_tokens") == Int(r.response.value.outputTokens)
                  && line.Get("response_id") == Str(r.response.value.responseId))
            && (r.failure == None ==> line.Get("failure") == Null)
            && (r.failure.Some? ==> line.Get("failure").Str? && Says(r.failure.value, line.Get("failure").s))
  {
  }

  // The reason a line gives for a failure.
  predicate Says(reason: C1Reason, text: string) {
    || (reason == ConcurrentCall && text == "concurrent_call")
    || (reason == WorstCaseExceedsCallLimit && text == "worst_case_exceeds_call_limit")
    || (reason == WorstCaseExceedsRemainingRunBudget && text == "worst_case_exceeds_remaining_run_budget")
    || (reason.ProviderCallFailed? && text == "provider_call_failed:" + reason.error)
    || (reason == RunLimitExceededAfterCall && text == "run_limit_exceeded_after_call")
    || (reason == InputTokenEstimateExceeded && text == "input_token_estimate_exceeded")
    || (reason == InvalidB0Output && text == "invalid_b0_output")
  }

  // A line of this provider, model, configuration and pricing, under these
  // limits, with a charge.
  predicate OwnLine(pricing: Pricing, limits: SpendLimits, line: Json)
    requires line.Obj?
  {
    && line.Get("schema_version") == Str("c1-call-ledger/v1") && line.Get("provider") == Str("anthropic")
    && line.Get("model_id") == Str("claude-sonnet-5-5") && line.Get("configuration_version") == Str("C1/v1")
    && line.Get("pricing_version") == Str(pricing.version)
    && line.Get("max_call_microusd").Number?() && line.Get("max_call_microusd").Amount() == limits.maxCallMicrousd as real
    && line.Get("max_run_microusd").Number?() && line.Get("max_run_microusd").Amount() == limits.maxRunMicrousd as real
    && line.Get("charged_microusd").Int? && line.Get("charged_microusd").i >= 0
  }

  // No other line is ever accepted.
  lemma LineExactly(pricing: Pricing, limits: SpendLimits, line: Json)
    requires line.Obj?
    ensures CheckLine(pricing, limits, line).Ok? <==> OwnLine(pricing, limits, line)
    ensures OwnLine(pricing, limits, line) ==> CheckLine(pricing, limits, line) == Ok(line.Get("charged_microusd").i)
  {
  }

  function Sum(charges: seq<int>): int {
    if charges == [] then 0 else Sum(charges[..|charges| - 1]) + charges[|charges| - 1]
  }

  // An accepted ledger adds up the charges of its lines.
  lemma {:induction false} LedgerAddsUp(pricing: Pricing, limits: SpendLimits, lines: Ledger)
    ensures Accepted(pricing, limits, lines) <==> forall i :: 0 <= i < |lines| ==> OwnLine(pricing, limits, lines[i])
    ensures Accepted(pricing, limits, lines) ==>
              ChargesOf(pricing, limits, lines)
              == Sum(seq(|lines|, i requires 0 <= i < |lines| => Charge(lines[i])))
  {
    forall i | 0 <= i < |lines| ensures CheckLine(pricing, limits, lines[i]).Ok? <==> OwnLine(pricing, limits, lines[i]) {
      LineExactly(pricing, limits, lines[i]);
    }
    if lines != [] && Accepted(pricing, limits, lines) {
      var n := |lines| - 1;
      LedgerAddsUp(pricing, limits, lines[..n]);
      LineExactly(pricing, limits, lines[n]);
      var charges := seq(|lines|, i requires 0 <= i < |lines| => Charge(lines[i]));
      assert charges[..n] == seq(n, i requires 0 <= i < n => Charge(lines[..n][i]));
    }
  }

  function Charge(line: Json): int
    requires line.Obj?
  {
    if line.Get("charged_microusd").Int? then line.Get("charged_microusd").i else 0
  }
}
