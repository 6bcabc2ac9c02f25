// Provenance of a C1 run: the totals that are read back from its call ledgers.
module RunProvenance {
  import opened Basics
  import opened JsonTree
  import opened SpendArithmetic
  import opened C1Model

  datatype ProvenanceError = NoLedger | OtherProvenance | OtherLimits | InvalidCharge

  datatype LedgerTotals = LedgerTotals(callCount: nat, chargedMicrousd: nat)

  function ReasonText(reason: C1Reason): string {
    match reason
    case ConcurrentCall => "concurrent_call"
    case WorstCaseExceedsCallLimit => "worst_case_exceeds_call_limit"
    case WorstCaseExceedsRemainingRunBudget => "worst_case_exceeds_remaining_run_budget"
    case ProviderCallFailed(error) => "provider_call_failed:" + error
    case RunLimitExceededAfterCall => "run_limit_exceeded_after_call"
    case InputTokenEstimateExceeded => "input_token_estimate_exceeded"
    case InvalidB0Output => "invalid_b0_output"
  }

  // One line of the C1 call ledger.
  function LedgerLine(pricing: Pricing, limits: SpendLimits, r: C1Record): Json {
    Obj(map[
      "schema_version" := Str(CALL_LEDGER_SCHEMA_VERSION),
      "provider" := Str(MODEL_PROVIDER),
      "model_id" := Str(MODEL_ID),
      "configuration_version" := Str(CONFIGURATION_VERSION),
      "pricing_version" := Str(pricing.version),
      "call_index" := Int(r.callIndex),
      "outcome" := Str(if r.failure.Some? then "failed" else "succeeded"),
      "failure" := if r.failure.Some? then Str(ReasonText(r.failure.value)) else Null,
      "estimated_input_tokens" := Int(r.estimatedInputTokens),
      "actual_input_tokens" := if r.response.Some? then Int(r.response.value.inputTokens) else Null,
      "output_tokens" := if r.response.Some? then Int(r.response.value.outputTokens) else Null,
      "response_id" := if r.response.Some? then Str(r.response.value.responseId) else Null,
      "worst_case_microusd" := Int(r.worstCaseMicrousd),
      "charged_microusd" := Int(r.chargedMicrousd),
      "running_total_microusd" := Int(r.runningTotalMicrousd),
      "max_call_microusd" := Int(limits.maxCallMicrousd),
      "max_run_microusd" := Int(limits.maxRunMicrousd)])
  }

  function CheckLine(pricing: Pricing, limits: SpendLimits, line: Json): Result<nat, ProvenanceError>
    requires line.Obj?
  {
    if line.Get("schema_version") != Str(CALL_LEDGER_SCHEMA_VERSION)
       || line.Get("provider") != Str(MODEL_PROVIDER)
       || line.Get("model_id") != Str(MODEL_ID)
       || line.Get("configuration_version") != Str(CONFIGURATION_VERSION)
       || line.Get("pricing_version") != Str(pricing.version)
    then Err(OtherProvenance)
    else if !PyEq(line.Get("max_call_microusd"), Int(limits.maxCallMicrousd))
            || !PyEq(line.Get("max_run_microusd"), Int(limits.maxRunMicrousd))
    then Err(OtherLimits)
    else
      var charged := line.Get("charged_microusd");
      if !charged.Int? || charged.i < 0 then Err(InvalidCharge) else Ok(charged.i)
  }

  type Ledger = lines: seq<Json> | forall i :: 0 <= i < |lines| ==> lines[i].Obj?

  // Everything the lines of one ledger add up to.
  function ChargesOf(pricing: Pricing, limits: SpendLimits, lines: Ledger): nat {
    if lines == [] then 0
    else
      var last := CheckLine(pricing, limits, lines[|lines| - 1]);
      ChargesOf(pricing, limits, lines[..|lines| - 1]) + if last.Ok? then last.value else 0
  }

  predicate Accepted(pricing: Pricing, limits: SpendLimits, lines: Ledger) {
    forall i :: 0 <= i < |lines| ==> CheckLine(pricing, limits, lines[i]).Ok?
  }

  function SumCharges(pricing: Pricing, limits: SpendLimits, ledgers: seq<Ledger>): nat {
    if ledgers == [] then 0
    else SumCharges(pricing, limits, ledgers[..|ledgers| - 1]) + ChargesOf(pricing, limits, ledgers[|ledgers| - 1])
  }

  function SumLines(ledgers: seq<Ledger>): nat {
    if ledgers == [] then 0 else SumLines(ledgers[..|ledgers| - 1]) + |ledgers[|ledgers| - 1]|
  }

  lemma LinesNext(pricing: Pricing, limits: SpendLimits, lines: Ledger, i: nat)
    requires i < |lines| && Accepted(pricing, limits, lines[..i])
    ensures Accepted(pricing, limits, lines[..i + 1]) <==> CheckLine(pricing, limits, lines[i]).Ok?
    ensures Accepted(pricing, limits, lines) ==> CheckLine(pricing, limits, lines[i]).Ok?
    ensures CheckLine(pricing, limits, lines[i]).Ok? ==>
              ChargesOf(pricing, limits, lines[..i + 1])
              == ChargesOf(pricing, limits, lines[..i]) + CheckLine(pricing, limits, lines[i]).value
  {
    assert lines[..i + 1][..i] == lines[..i] && lines[..i + 1][i] == lines[i];
  }

  // The inner loop, over the lines of one ledger.
  method SumLedger(pricing: Pricing, limits: SpendLimits, lines: Ledger) returns (r: Result<nat, ProvenanceError>)
    ensures r.Ok? <==> Accepted(pricing, limits, lines)
    ensures r.Ok? ==> r.value == ChargesOf(pricing, limits, lines)
  {
    var chargedMicrousd := 0;
    for i := 0 to |lines|
      invariant Accepted(pricing, limits, lines[..i])
      invariant chargedMicrousd == ChargesOf(pricing, limits, lines[..i])
    {
      LinesNext(pricing, limits, lines, i);
      var charged := CheckLine(pricing, limits, lines[i]);
      if charged.Err? {
        return Err(charged.error);
      }
      chargedMicrousd := chargedMicrousd + charged.value;
    }
    assert lines[..|lines|] == lines;
    return Ok(chargedMicrousd);
  }

  predicate AllAccepted(pricing: Pricing, limits: SpendLimits, ledgers: seq<Ledger>) {
    forall l :: 0 <= l < |ledgers| ==> Accepted(pricing, limits, ledgers[l])
  }

  lemma AcceptedNext(pricing: Pricing, limits: SpendLimits, ledgers: seq<Ledger>, l: nat)
    requires l < |ledgers| && AllAccepted(pricing, limits, ledgers[..l])
    ensures AllAccepted(pricing, limits, ledgers[..l + 1]) <==> Accepted(pricing, limits, ledgers[l])
    ensures AllAccepted(pricing, limits, ledgers) ==> Accepted(pricing, limits, ledgers[l])
  {
    assert ledgers[..l + 1] == ledgers[..l] + [ledgers[l]];
    assert ledgers[..l + 1][l] == ledgers[l];
  }

  lemma SumsNext(pricing: Pricing, limits: SpendLimits, ledgers: seq<Ledger>, l: nat)
    requires l < |ledgers|
    ensures SumLines(ledgers[..l + 1]) == SumLines(ledgers[..l]) + |ledgers[l]|
    ensures SumCharges(pricing, limits, ledgers[..l + 1])
            == SumCharges(pricing, limits, ledgers[..l]) + ChargesOf(pricing, limits, ledgers[l])
  {
    assert ledgers[..l + 1][..l] == ledgers[..l];
  }

  // The ledger loop of the provenance builder: accepted exactly when there is a
  // ledger and every line is, and then it reports the number of lines and the
  // sum of their charges.
  method LedgerProvenance(pricing: Pricing, limits: SpendLimits, ledgers: seq<Ledger>)
    returns (r: Result<LedgerTotals, ProvenanceError>)
    ensures r.Ok? <==> ledgers != [] && AllAccepted(pricing, limits, ledgers)
    ensures r.Ok? ==> r.value == LedgerTotals(SumLines(ledgers), SumCharges(pricing, limits, ledgers))
  {
    if ledgers == [] {
      return Err(NoLedger);
    }
    var callCount, chargedMicrousd := 0, 0;
    for l := 0 to |ledgers|
      invariant AllAccepted(pricing, limits, ledgers[..l])
      invariant callCount == SumLines(ledgers[..l])
      invariant chargedMicrousd == SumCharges(pricing, limits, ledgers[..l])
    {
      AcceptedNext(pricing, limits, ledgers, l);
      SumsNext(pricing, limits, ledgers, l);
      var charged := SumLedger(pricing, limits, ledgers[l]);
      if charged.Err? {
        return Err(charged.error);
      }
      callCount, chargedMicrousd := callCount + |ledgers[l]|, chargedMicrousd + charged.value;
    }
    assert ledgers[..|ledgers|] == ledgers;
    return Ok(LedgerTotals(callCount, chargedMicrousd));
  }

  function LedgerFile(pricing: Pricing, limits: SpendLimits, ledger: seq<C1Record>): Ledger {
    seq(|ledger|, i requires 0 <= i < |ledger| => LedgerLine(pricing, limits, ledger[i]))
  }

  lemma LineReadsBack(pricing: Pricing, limits: SpendLimits, r: C1Record)
    ensures CheckLine(pricing, limits, LedgerLine(pricing, limits, r)) == Ok(r.chargedMicrousd)
  {
    var line := LedgerLine(pricing, limits, r);
    assert line.Get("charged_microusd") == Int(r.chargedMicrousd);
  }

  lemma {:induction false} LedgerReadsBack(pricing: Pricing, limits: SpendLimits, ledger: seq<C1Record>)
    ensures Accepted(pricing, limits, LedgerFile(pricing, limits, ledger))
    ensures ChargesOf(pricing, limits, LedgerFile(pricing, limits, ledger)) == C1Charges(ledger)
  {
    forall i | 0 <= i < |ledger| { LineReadsBack(pricing, limits, ledger[i]); }
    if ledger != [] {
      var (n, file) := (|ledger| - 1, LedgerFile(pricing, limits, ledger));
      LedgerReadsBack(pricing, limits, ledger[..n]);
      assert file[..n] == LedgerFile(pricing, limits, ledger[..n]);
      LineReadsBack(pricing, limits, ledger[n]);
    }
  }

  function SumTotals(pricing: Pricing, limits: SpendLimits, runs: seq<seq<C1Call>>): nat {
    if runs == [] then 0
    else SumTotals(pricing, limits, runs[..|runs| - 1]) + CompleteAll(pricing, limits, runs[|runs| - 1]).total
  }

  function SumCalls(pricing: Pricing, limits: SpendLimits, runs: seq<seq<C1Call>>): nat {
    if runs == [] then 0
    else SumCalls(pricing, limits, runs[..|runs| - 1]) + CompleteAll(pricing, limits, runs[|runs| - 1]).calls
  }

  function Files(pricing: Pricing, limits: SpendLimits, runs: seq<seq<C1Call>>): seq<Ledger> {
    seq(|runs|, l requires 0 <= l < |runs| =>
      LedgerFile(pricing, limits, CompleteAll(pricing, limits, runs[l]).ledger))
  }

  lemma {:induction false} SumsMatchControllers(pricing: Pricing, limits: SpendLimits, runs: seq<seq<C1Call>>)
    ensures SumCharges(pricing, limits, Files(pricing, limits, runs)) == SumTotals(pricing, limits, runs)
    ensures SumLines(Files(pricing, limits, runs)) == SumCalls(pricing, limits, runs)
  {
    if runs != [] {
      var (n, files) := (|runs| - 1, Files(pricing, limits, runs));
      SumsMatchControllers(pricing, limits, runs[..n]);
      assert files[..n] == Files(pricing, limits, runs[..n]);
      LedgerReadsBack(pricing, limits, CompleteAll(pricing, limits, runs[n]).ledger);
      LedgerAccountsForTotal(pricing, limits, runs[n]);
    }
  }

  // The ledgers of any C1 runs under one pricing and one pair of limits are
  // accepted, and the provenance totals are those of the controllers.
  method ProvenanceOfRuns(pricing: Pricing, limits: SpendLimits, runs: seq<seq<C1Call>>)
    returns (r: Result<LedgerTotals, ProvenanceError>)
    requires runs != []
    ensures r == Ok(LedgerTotals(SumCalls(pricing, limits, runs), SumTotals(pricing, limits, runs)))
  {
    var files := Files(pricing, limits, runs);
    forall l | 0 <= l < |files| ensures Accepted(pricing, limits, files[l]) {
      LedgerReadsBack(pricing, limits, CompleteAll(pricing, limits, runs[l]).ledger);
    }
    SumsMatchControllers(pricing, limits, runs);
    r := LedgerProvenance(pricing, limits, files);
  }
}
