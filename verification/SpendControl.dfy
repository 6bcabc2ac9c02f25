// Fail-closed spend control around paid provider calls: one call after another.
// The provider's answer, the usage-details callback and the output validator
// are inputs; the ledger is a sequence of records.
module SpendControl {
  import opened Basics
  import opened JsonTree
  import opened SpendArithmetic

  datatype UsageDetails = DetailsRaised | DetailsReturned(values: map<string, Json>)

  datatype Response = Response(
    inputTokens: nat,
    outputTokens: nat,
    responseId: string,
    details: UsageDetails,
    outputAccepted: bool)

  datatype Outcome = Raised(error: string) | Responded(response: Response)

  datatype Reason =
    | ConcurrentCall
    | WorstCaseExceedsCallLimit
    | WorstCaseExceedsRemainingRunBudget
    | ProviderCallFailed(error: string)
    | InvalidUsageDetails
    | RunLimitExceededAfterCall
    | InputTokenEstimateExceeded
    | InvalidOutput

  datatype Rejection = Overlapping | AlreadyClosed(reason: Reason) | FailedClosed(callIndex: nat, reason: Reason)

  datatype Record = Record(
    callIndex: nat,
    failure: Option<Reason>,
    estimatedInputTokens: nat,
    actualInputTokens: Option<nat>,
    outputTokens: Option<nat>,
    responseId: Option<string>,
    worstCaseMicrousd: nat,
    chargedMicrousd: nat,
    runningTotalMicrousd: nat,
    extra: map<string, Json>)

  datatype Config = Config(
    pricing: Pricing,
    worstCasePricing: Pricing,
    limits: SpendLimits,
    calibration: Calibration,
    outputTokenCap: nat,
    extraLedgerFields: set<string>,
    usageDetails: bool)
  {
    predicate Valid() {
      && limits.Valid()
      && calibration.Valid()
      && outputTokenCap > 0
      && pricing.inputMicrousdPerMillionTokens <= worstCasePricing.inputMicrousdPerMillionTokens
      && pricing.outputMicrousdPerMillionTokens == worstCasePricing.outputMicrousdPerMillionTokens
      && (usageDetails <==> extraLedgerFields != {})
    }

    function WorstCase(estimated: nat): nat {
      CostMicrousd(worstCasePricing, estimated, outputTokenCap)
    }

    function Charge(response: Response): nat {
      CostMicrousd(pricing, response.inputTokens, response.outputTokens)
    }

    // How far an accepted tolerance can carry one charge past its worst case.
    function Slack(worstCase: nat): int {
      Ceiling(calibration.tolerance * worstCase as real)
    }
  }

  predicate ValidDetails(config: Config, details: UsageDetails) {
    && details.DetailsReturned?
    && details.values.Keys == config.extraLedgerFields
    && forall name | name in details.values :: var v := details.values[name]; v == Null || (v.Int? && v.i >= 0)
  }

  datatype Decision = Decision(failure: Option<Reason>, charged: nat, response: Option<Response>)

  predicate Admits(config: Config, total: nat, worst: nat) {
    worst <= config.limits.maxCallMicrousd && total + worst <= config.limits.maxRunMicrousd
  }

  // What one call does to the books, in the order of the source's checks.  The
  // provider's outcome plays no part unless the two limits admit the call.
  function Decide(config: Config, total: nat, estimated: nat, outcome: Outcome): Decision {
    var worst := config.WorstCase(estimated);
    if worst > config.limits.maxCallMicrousd then Decision(Some(WorstCaseExceedsCallLimit), 0, None)
    else if total + worst > config.limits.maxRunMicrousd then
      Decision(Some(WorstCaseExceedsRemainingRunBudget), 0, None)
    else match outcome
      case Raised(error) => Decision(Some(ProviderCallFailed(error)), worst, None)
      case Responded(response) => Decision(Judge(config, total, estimated, response), config.Charge(response), Some(response))
  }

  function Judge(config: Config, total: nat, estimated: nat, response: Response): Option<Reason> {
    if config.usageDetails && !ValidDetails(config, response.details) then Some(InvalidUsageDetails)
    else if total + config.Charge(response) > config.limits.maxRunMicrousd then Some(RunLimitExceededAfterCall)
    else if ExceedsTolerance(estimated, response.inputTokens, config.calibration) then Some(InputTokenEstimateExceeded)
    else if !response.outputAccepted then Some(InvalidOutput)
    else None
  }

  function Extra(config: Config, decision: Decision): map<string, Json> {
    var details := if decision.response.Some? && config.usageDetails && ValidDetails(config, decision.response.value.details)
                   then decision.response.value.details.values else map[];
    map name | name in config.extraLedgerFields :: if name in details then details[name] else Null
  }

  function RecordOf(config: Config, index: nat, total: nat, estimated: nat, decision: Decision): Record {
    var response := decision.response;
    Record(
      index,
      decision.failure,
      estimated,
      if response.Some? then Some(response.value.inputTokens) else None,
      if response.Some? then Some(response.value.outputTokens) else None,
      if response.Some? then Some(response.value.responseId) else None,
      config.WorstCase(estimated),
      decision.charged,
      total + decision.charged,
      Extra(config, decision))
  }

  // ---- The books ----

  function Charges(ledger: seq<Record>): nat {
    if ledger == [] then 0 else Charges(ledger[..|ledger| - 1]) + ledger[|ledger| - 1].chargedMicrousd
  }

  predicate OverLimitAllowed(r: Record) {
    r.failure in {Some(RunLimitExceededAfterCall), Some(InvalidUsageDetails)}
  }

  // What any single record guarantees about the money spent up to it.
  ghost predicate Lawful(config: Config, r: Record) {
    var maxRun := config.limits.maxRunMicrousd;
    && r.worstCaseMicrousd == config.WorstCase(r.estimatedInputTokens)
    && (r.runningTotalMicrousd > maxRun ==> OverLimitAllowed(r))
    && (r.actualInputTokens.Some? <==> r.outputTokens.Some?)
    && (r.actualInputTokens.None? ==> r.failure.Some? && r.chargedMicrousd in {0, r.worstCaseMicrousd})
    && (r.actualInputTokens.Some? && r.outputTokens.value <= config.outputTokenCap ==>
          && (!ExceedsTolerance(r.estimatedInputTokens, r.actualInputTokens.value, config.calibration) ==>
                r.runningTotalMicrousd <= maxRun + config.Slack(r.worstCaseMicrousd))
          && (r.actualInputTokens.value <= r.estimatedInputTokens ==> r.runningTotalMicrousd <= maxRun))
    && (r.failure.None? ==>
          !ExceedsTolerance(r.estimatedInputTokens, r.actualInputTokens.value, config.calibration))
    && r.extra.Keys == config.extraLedgerFields
  }

  // Running totals are prefix sums, calls are numbered from one, every record
  // is lawful, and at most one record failed: the last.
  ghost predicate Balanced(config: Config, total: nat, ledger: seq<Record>) {
    && total == Charges(ledger)
    && forall i :: 0 <= i < |ledger| ==>
         && ledger[i].runningTotalMicrousd == Charges(ledger[..i + 1])
         && ledger[i].callIndex == i + 1
         && (ledger[i].failure.Some? ==> i == |ledger| - 1)
         && Lawful(config, ledger[i])
  }

  predicate LastFailed(ledger: seq<Record>) {
    ledger != [] && ledger[|ledger| - 1].failure.Some?
  }

  lemma ChargeBounds(config: Config, estimated: nat, response: Response)
    requires config.Valid() && response.outputTokens <= config.outputTokenCap
    ensures response.inputTokens <= estimated ==> config.Charge(response) <= config.WorstCase(estimated)
    ensures !ExceedsTolerance(estimated, response.inputTokens, config.calibration) ==>
      config.Charge(response) <= config.WorstCase(estimated) + config.Slack(config.WorstCase(estimated))
  {
    if response.inputTokens <= estimated {
      WorstCaseCoversCharge(config.pricing, config.worstCasePricing, estimated,
                            config.outputTokenCap, response.inputTokens, response.outputTokens);
    }
    if !ExceedsTolerance(estimated, response.inputTokens, config.calibration) {
      ToleratedChargeBound(config.pricing, config.worstCasePricing, config.calibration, estimated,
                           config.outputTokenCap, response.inputTokens, response.outputTokens);
    }
  }

  lemma RecordIsLawful(config: Config, index: nat, total: nat, estimated: nat, outcome: Outcome)
    requires config.Valid() && total <= config.limits.maxRunMicrousd
    ensures Lawful(config, RecordOf(config, index, total, estimated, Decide(config, total, estimated, outcome)))
  {
    if outcome.Responded? && outcome.response.outputTokens <= config.outputTokenCap {
      ChargeBounds(config, estimated, outcome.response);
    }
  }

  // An unfailed ledger is within the run limit.
  lemma UnfailedWithinLimit(config: Config, total: nat, ledger: seq<Record>)
    requires config.Valid() && Balanced(config, total, ledger) && !LastFailed(ledger)
    ensures total <= config.limits.maxRunMicrousd
  {
    if ledger != [] {
      assert ledger[..|ledger| - 1 + 1] == ledger;
      assert Lawful(config, ledger[|ledger| - 1]);
    }
  }

  lemma BooksStayBalanced(config: Config, total: nat, ledger: seq<Record>, estimated: nat, outcome: Outcome)
    requires config.Valid() && Balanced(config, total, ledger) && !LastFailed(ledger)
    ensures var d := Decide(config, total, estimated, outcome);
            Balanced(config, total + d.charged, ledger + [RecordOf(config, |ledger| + 1, total, estimated, d)])
  {
    var d := Decide(config, total, estimated, outcome);
    var r := RecordOf(config, |ledger| + 1, total, estimated, d);
    var ledger' := ledger + [r];
    UnfailedWithinLimit(config, total, ledger);
    RecordIsLawful(config, |ledger| + 1, total, estimated, outcome);
    assert ledger'[..|ledger|] == ledger;
    assert Charges(ledger') == total + d.charged;
    forall i | 0 <= i < |ledger'|
      ensures ledger'[i].runningTotalMicrousd == Charges(ledger'[..i + 1])
      ensures ledger'[i].failure.Some? ==> i == |ledger'| - 1
    {
      if i < |ledger| {
        assert ledger'[..i + 1] == ledger[..i + 1];
      } else {
        assert ledger'[..i + 1] == ledger';
      }
    }
  }

  // ---- The controller ----

  datatype Controller = Controller(closed: Option<Reason>, calls: nat, total: nat, ledger: seq<Record>)

  const OPEN := Controller(None, 0, 0, [])

  datatype Call = Call(characters: nat, outcome: Outcome)

  function RunOne(config: Config, s: Controller, call: Call): (Controller, Result<Response, Rejection>)
    requires config.Valid()
  {
    if s.closed.Some? then (s, Err(AlreadyClosed(s.closed.value)))
    else
      var estimated := EstimateInputTokens(call.characters, config.calibration);
      var d := Decide(config, s.total, estimated, call.outcome);
      var index := s.calls + 1;
      var s' := Controller(d.failure, index, s.total + d.charged,
                           s.ledger + [RecordOf(config, index, s.total, estimated, d)]);
      (s', if d.failure.Some? then Err(FailedClosed(index, d.failure.value))
           else Ok(d.response.value))
  }

  function RunAll(config: Config, s: Controller, calls: seq<Call>): Controller
    requires config.Valid()
  {
    if calls == [] then s
    else RunOne(config, RunAll(config, s, calls[..|calls| - 1]), calls[|calls| - 1]).0
  }

  ghost predicate Sound(config: Config, s: Controller) {
    && Balanced(config, s.total, s.ledger)
    && s.calls == |s.ledger|
    && (LastFailed(s.ledger) ==> s.closed.Some?)
  }

  lemma RunOneIsSound(config: Config, s: Controller, call: Call)
    requires config.Valid() && Sound(config, s)
    ensures Sound(config, RunOne(config, s, call).0)
  {
    if s.closed.None? {
      BooksStayBalanced(config, s.total, s.ledger, EstimateInputTokens(call.characters, config.calibration), call.outcome);
    }
  }

  // Every run keeps the books, whatever the provider answers.
  lemma {:induction false} EveryRunIsSound(config: Config, calls: seq<Call>)
    requires config.Valid()
    ensures Sound(config, RunAll(config, OPEN, calls))
  {
    if calls != [] {
      EveryRunIsSound(config, calls[..|calls| - 1]);
      RunOneIsSound(config, RunAll(config, OPEN, calls[..|calls| - 1]), calls[|calls| - 1]);
    }
  }

  // The run limit is overshot only by a call that ended the run, and by no more
  // than the tolerance allows when the provider kept to cap and tolerance.
  lemma RunLimitHolds(config: Config, calls: seq<Call>)
    requires config.Valid()
    ensures var s := RunAll(config, OPEN, calls);
            s.total > config.limits.maxRunMicrousd ==>
              && s.closed.Some?
              && s.ledger != []
              && var last := s.ledger[|s.ledger| - 1];
                 && OverLimitAllowed(last)
                 && last.actualInputTokens.Some? && last.outputTokens.Some?
                 && (last.outputTokens.value > config.outputTokenCap
                     || (last.actualInputTokens.value > last.estimatedInputTokens
                         && (ExceedsTolerance(last.estimatedInputTokens, last.actualInputTokens.value, config.calibration)
                             || s.total <= config.limits.maxRunMicrousd + config.Slack(last.worstCaseMicrousd))))
  {
    EveryRunIsSound(config, calls);
    var s := RunAll(config, OPEN, calls);
    if s.total > config.limits.maxRunMicrousd {
      var i := |s.ledger| - 1;
      assert s.ledger[..i + 1] == s.ledger;
      assert Lawful(config, s.ledger[i]);
      if !LastFailed(s.ledger) { UnfailedWithinLimit(config, s.total, s.ledger); }
    }
  }

  // A failure latches: nothing is charged, counted or recorded any more.
  lemma {:induction false} ClosedForever(config: Config, s: Controller, calls: seq<Call>)
    requires config.Valid() && s.closed.Some?
    ensures RunAll(config, s, calls) == s
  {
    if calls != [] {
      ClosedForever(config, s, calls[..|calls| - 1]);
    }
  }

  // The call that fails reaches the provider only if the limits admitted it,
  // and a call is paid for exactly when it did.
  lemma PaidOnlyIfAdmitted(config: Config, s: Controller, call: Call)
    requires config.Valid()
    ensures var s' := RunOne(config, s, call).0;
            var worst := config.WorstCase(EstimateInputTokens(call.characters, config.calibration));
            !(s.closed.None? && Admits(config, s.total, worst)) ==>
              s'.total == s.total && forall other :: RunOne(config, s, call.(outcome := other)).0 == s'
  {
  }

  // The source's object, with its calls settled step by step.
  class SpendControlledCalls {
    const config: Config
    var locked: bool
    var closedReason: Option<Reason>
    var callCount: nat
    var runningTotalMicrousd: nat
    var ledger: seq<Record>

    ghost function Snapshot(): Controller
      reads this
    {
      Controller(closedReason, callCount, runningTotalMicrousd, ledger)
    }

    constructor (config: Config)
      requires config.Valid()
      ensures this.config == config && !locked && Snapshot() == OPEN
    {
      this.config := config;
      locked, closedReason, callCount, runningTotalMicrousd, ledger := false, None, 0, 0, [];
    }

    // Without waiting for the lock: an overlapping call closes the controller.
    method Run(call: Call) returns (r: Result<Response, Rejection>)
      requires config.Valid()
      modifies this
      ensures locked == old(locked)
      ensures old(locked) ==>
        r == Err(Overlapping) && Snapshot() == old(Snapshot()).(closed := Some(ConcurrentCall))
      ensures !old(locked) ==> (Snapshot(), r) == RunOne(config, old(Snapshot()), call)
    {
      if locked {
        closedReason := Some(ConcurrentCall);
        return Err(Overlapping);
      }
      locked := true;
      r := RunUnlocked(call);
      locked := false;
    }

    method RunUnlocked(call: Call) returns (r: Result<Response, Rejection>)
      requires config.Valid()
      modifies this`closedReason, this`callCount, this`runningTotalMicrousd, this`ledger
      ensures (Snapshot(), r) == RunOne(config, old(Snapshot()), call)
    {
      if closedReason.Some? {
        return Err(AlreadyClosed(closedReason.value));
      }
      callCount := callCount + 1;
      var estimated := EstimateInputTokens(call.characters, config.calibration);
      var worst := CostMicrousd(config.worstCasePricing, estimated, config.outputTokenCap);
      var total := runningTotalMicrousd;
      if worst > config.limits.maxCallMicrousd {
        r := Fail(estimated, Decision(Some(WorstCaseExceedsCallLimit), 0, None));
        return;
      }
      if total + worst > config.limits.maxRunMicrousd {
        r := Fail(estimated, Decision(Some(WorstCaseExceedsRemainingRunBudget), 0, None));
        return;
      }
      if call.outcome.Raised? {
        r := Fail(estimated, Decision(Some(ProviderCallFailed(call.outcome.error)), worst, None));
        return;
      }
      var response := call.outcome.response;
      var charged := CostMicrousd(config.pricing, response.inputTokens, response.outputTokens);
      if config.usageDetails && !ValidDetails(config, response.details) {
        r := Fail(estimated, Decision(Some(InvalidUsageDetails), charged, Some(response)));
        return;
      }
      if total + charged > config.limits.maxRunMicrousd {
        r := Fail(estimated, Decision(Some(RunLimitExceededAfterCall), charged, Some(response)));
        return;
      }
      if ExceedsTolerance(estimated, response.inputTokens, config.calibration) {
        r := Fail(estimated, Decision(Some(InputTokenEstimateExceeded), charged, Some(response)));
        return;
      }
      if !response.outputAccepted {
        r := Fail(estimated, Decision(Some(InvalidOutput), charged, Some(response)));
        return;
      }
      runningTotalMicrousd := total + charged;
      ledger := ledger + [RecordOf(config, callCount, total, estimated, Decision(None, charged, Some(response)))];
      return Ok(response);
    }

    method Fail(estimated: nat, d: Decision) returns (r: Result<Response, Rejection>)
      requires d.failure.Some?
      modifies this`closedReason, this`runningTotalMicrousd, this`ledger
      ensures closedReason == d.failure
      ensures runningTotalMicrousd == old(runningTotalMicrousd) + d.charged
      ensures ledger == old(ledger) + [RecordOf(config, callCount, old(runningTotalMicrousd), estimated, d)]
      ensures r == Err(FailedClosed(callCount, d.failure.value))
    {
      var total := runningTotalMicrousd;
      closedReason := d.failure;
      runningTotalMicrousd := total + d.charged;
      ledger := ledger + [RecordOf(config, callCount, total, estimated, d)];
      return Err(FailedClosed(callCount, d.failure.value));
    }
  }
}
