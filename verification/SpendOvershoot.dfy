// When exactly the run limit is passed, and what a caller can check beforehand.
module SpendOvershoot {
  import opened Basics
  import opened SpendArithmetic
  import opened SpendControl

  // ---- A call that keeps to cap and tolerance and passes the limit ----

  const ONE_PER_TOKEN := Pricing("p", 1_000_000, 0)
  const TIGHT :=
    Config(ONE_PER_TOKEN, ONE_PER_TOKEN, SpendLimits(100, 100), Calibration(1.0, 0.15), 1, {}, false)
  const TALKATIVE := Response(110, 1, "id", DetailsRaised, true)

  lemma ToleratedCallOvershoots()
    ensures TIGHT.Valid() && Tolerated(TIGHT, 100, Responded(TALKATIVE))
    ensures var s := RunAll(TIGHT, OPEN, [Call(100, Responded(TALKATIVE))]);
            s.total == 110 > TIGHT.limits.maxRunMicrousd && s.closed == Some(RunLimitExceededAfterCall)
  {
    assert RunAll(TIGHT, OPEN, []) == OPEN;
    assert [Call(100, Responded(TALKATIVE))][..0] == [];
    assert EstimateInputTokens(100, TIGHT.calibration) == 100;
    assert TIGHT.WorstCase(100) == 100 && TIGHT.Charge(TALKATIVE) == 110;
  }

  // ---- One call ----

  // The answer, if there is one, keeps to the output cap and the tolerance.
  predicate Tolerated(config: Config, characters: nat, outcome: Outcome)
    requires config.Valid()
  {
    outcome.Responded? ==>
      && outcome.response.outputTokens <= config.outputTokenCap
      && !ExceedsTolerance(EstimateInputTokens(characters, config.calibration), outcome.response.inputTokens, config.calibration)
  }

  predicate Overshoots(config: Config, s: Controller, call: Call)
    requires config.Valid()
  {
    && s.closed.None? && Admits(config, s.total, config.WorstCase(EstimateInputTokens(call.characters, config.calibration)))
    && call.outcome.Responded? && s.total + config.Charge(call.outcome.response) > config.limits.maxRunMicrousd
  }

  // A call passes the limit exactly when it is let through and its answer does
  // not fit in what is left.
  lemma OvershootsExactly(config: Config, s: Controller, call: Call)
    requires config.Valid() && s.total <= config.limits.maxRunMicrousd
    ensures RunOne(config, s, call).0.total > config.limits.maxRunMicrousd <==> Overshoots(config, s, call)
    ensures Overshoots(config, s, call) ==> RunOne(config, s, call).0.closed.Some?
  {
  }

  // The most input tokens that an estimate tolerates.
  function MostTolerated(estimated: nat, calibration: Calibration): (most: nat)
    requires calibration.Valid()
    ensures forall input: nat :: !ExceedsTolerance(estimated, input, calibration) <==> input <= most
  {
    MulMonotone(0.0, estimated as real, 1.0 + calibration.tolerance);
    (estimated as real * (1.0 + calibration.tolerance)).Floor
  }

  // What the dearest tolerated answer costs.
  function DearestCharge(config: Config, estimated: nat): nat
    requires config.Valid()
  {
    CostMicrousd(config.pricing, MostTolerated(estimated, config.calibration), config.outputTokenCap)
  }

  // Known before the call: it is refused, or its dearest tolerated answer fits.
  predicate Fits(config: Config, s: Controller, characters: nat)
    requires config.Valid()
  {
    var estimated := EstimateInputTokens(characters, config.calibration);
    s.closed.Some? || !Admits(config, s.total, config.WorstCase(estimated))
    || s.total + DearestCharge(config, estimated) <= config.limits.maxRunMicrousd
  }

  function Dearest(config: Config, characters: nat): Outcome
    requires config.Valid()
  {
    Responded(Response(MostTolerated(EstimateInputTokens(characters, config.calibration), config.calibration),
                       config.outputTokenCap, "", DetailsRaised, false))
  }

  lemma DearestIsDearest(config: Config, characters: nat, outcome: Outcome)
    requires config.Valid() && outcome.Responded? && Tolerated(config, characters, outcome)
    ensures Tolerated(config, characters, Dearest(config, characters))
    ensures config.Charge(outcome.response) <= config.Charge(Dearest(config, characters).response)
  {
    var dearest := Dearest(config, characters).response;
    WorstCaseCoversCharge(config.pricing, config.pricing, dearest.inputTokens, dearest.outputTokens,
                          outcome.response.inputTokens, outcome.response.outputTokens);
  }

  // Every tolerated answer to a text keeps the limit if and only if the text fits.
  lemma FittingTextsKeepTheLimit(config: Config, s: Controller, characters: nat)
    requires config.Valid() && s.total <= config.limits.maxRunMicrousd
    ensures Fits(config, s, characters)
            <==> forall outcome | Tolerated(config, characters, outcome) ::
                   RunOne(config, s, Call(characters, outcome)).0.total <= config.limits.maxRunMicrousd
  {
    forall outcome | Tolerated(config, characters, outcome) && Fits(config, s, characters)
      ensures RunOne(config, s, Call(characters, outcome)).0.total <= config.limits.maxRunMicrousd
    {
      if outcome.Responded? { DearestIsDearest(config, characters, outcome); }
      OvershootsExactly(config, s, Call(characters, outcome));
    }
    var dearest := Dearest(config, characters);
    DearestIsDearest(config, characters, dearest);
    OvershootsExactly(config, s, Call(characters, dearest));
  }

  // ---- Runs ----

  ghost predicate WithinLimit(config: Config, calls: seq<Call>)
    requires config.Valid()
  {
    RunAll(config, OPEN, calls).total <= config.limits.maxRunMicrousd
  }

  // A call of the run passes the limit.
  ghost predicate OvershootsAt(config: Config, calls: seq<Call>, i: nat)
    requires config.Valid() && i < |calls|
  {
    Overshoots(config, RunAll(config, OPEN, calls[..i]), calls[i])
  }

  // A run passes the limit exactly when one of its calls does; that call is the
  // last one that is settled.
  lemma {:induction false} RunOvershootsExactly(config: Config, calls: seq<Call>)
    requires config.Valid()
    ensures !WithinLimit(config, calls) <==> exists i :: 0 <= i < |calls| && OvershootsAt(config, calls, i)
    ensures forall i :: 0 <= i < |calls| && OvershootsAt(config, calls, i) ==>
              RunAll(config, OPEN, calls) == RunAll(config, OPEN, calls[..i + 1])
  {
    if calls != [] {
      var n := |calls| - 1;
      var before := RunAll(config, OPEN, calls[..n]);
      RunOvershootsExactly(config, calls[..n]);
      forall i | 0 <= i < n ensures OvershootsAt(config, calls, i) == OvershootsAt(config, calls[..n], i) {
        assert calls[..n][..i] == calls[..i];
      }
      if WithinLimit(config, calls[..n]) {
        OvershootsExactly(config, before, calls[n]);
        assert OvershootsAt(config, calls, n) <==> Overshoots(config, before, calls[n]);
      } else {
        RunLimitHolds(config, calls[..n]);
        assert RunAll(config, OPEN, calls) == before;
      }
      forall i | 0 <= i < |calls| && OvershootsAt(config, calls, i)
        ensures RunAll(config, OPEN, calls) == RunAll(config, OPEN, calls[..i + 1])
      {
        if i == n {
          assert calls[..n + 1] == calls;
        } else {
          assert OvershootsAt(config, calls[..n], i);
          assert calls[..n][..i + 1] == calls[..i + 1];
        }
      }
    }
  }

  ghost predicate Asks(calls: seq<Call>, texts: seq<nat>) {
    |calls| == |texts| && forall i :: 0 <= i < |calls| ==> calls[i].characters == texts[i]
  }

  ghost predicate AllTolerated(config: Config, calls: seq<Call>)
    requires config.Valid()
  {
    forall i :: 0 <= i < |calls| ==> Tolerated(config, calls[i].characters, calls[i].outcome)
  }

  // Before each call of the run, its text fits.
  ghost predicate FitsThroughout(config: Config, calls: seq<Call>)
    requires config.Valid()
  {
    forall i :: 0 <= i < |calls| ==> Fits(config, RunAll(config, OPEN, calls[..i]), calls[i].characters)
  }

  lemma {:induction false} FittingRunKeepsTheLimit(config: Config, calls: seq<Call>)
    requires config.Valid() && AllTolerated(config, calls) && FitsThroughout(config, calls)
    ensures WithinLimit(config, calls)
  {
    if calls != [] {
      var n := |calls| - 1;
      forall i | 0 <= i < n ensures Fits(config, RunAll(config, OPEN, calls[..n][..i]), calls[..n][i].characters) {
        assert calls[..n][..i] == calls[..i];
      }
      FittingRunKeepsTheLimit(config, calls[..n]);
      FittingTextsKeepTheLimit(config, RunAll(config, OPEN, calls[..n]), calls[n].characters);
    }
  }

  // If one text does not fit when its turn comes, its dearest tolerated answer
  // passes the limit, whatever comes afterwards.
  lemma UnfitTextOvershoots(config: Config, calls: seq<Call>, texts: seq<nat>, i: nat)
    requires config.Valid() && Asks(calls, texts) && AllTolerated(config, calls) && i < |calls|
    requires WithinLimit(config, calls[..i]) && !Fits(config, RunAll(config, OPEN, calls[..i]), calls[i].characters)
    ensures var dearer := calls[i := Call(calls[i].characters, Dearest(config, calls[i].characters))];
            Asks(dearer, texts) && AllTolerated(config, dearer) && !WithinLimit(config, dearer)
  {
    var text := calls[i].characters;
    var dearest := Dearest(config, text);
    var dearer := calls[i := Call(text, dearest)];
    DearestIsDearest(config, text, dearest);
    assert dearer[..i] == calls[..i];
    assert OvershootsAt(config, dearer, i);
    RunOvershootsExactly(config, dearer);
  }

  // For any texts: no tolerated answers to them can take a run past the limit
  // if and only if each text fits when its turn comes, in every such run.
  lemma LimitIsSafeExactlyWhenTextsFit(config: Config, texts: seq<nat>)
    requires config.Valid()
    ensures (forall calls | Asks(calls, texts) && AllTolerated(config, calls) :: WithinLimit(config, calls))
       <==> (forall calls | Asks(calls, texts) && AllTolerated(config, calls) :: FitsThroughout(config, calls))
  {
    forall calls | Asks(calls, texts) && AllTolerated(config, calls) && FitsThroughout(config, calls)
      ensures WithinLimit(config, calls)
    {
      FittingRunKeepsTheLimit(config, calls);
    }
    if forall calls | Asks(calls, texts) && AllTolerated(config, calls) :: WithinLimit(config, calls) {
      forall calls: seq<Call>, i: nat | Asks(calls, texts) && AllTolerated(config, calls) && 0 <= i < |calls|
        ensures Fits(config, RunAll(config, OPEN, calls[..i]), calls[i].characters)
      {
        if !Fits(config, RunAll(config, OPEN, calls[..i]), calls[i].characters) {
          PrefixWithinLimit(config, calls, i);
          UnfitTextOvershoots(config, calls, texts, i);
          assert false;
        }
      }
    }
  }

  lemma PrefixWithinLimit(config: Config, calls: seq<Call>, i: nat)
    requires config.Valid() && WithinLimit(config, calls) && i <= |calls|
    ensures WithinLimit(config, calls[..i])
  {
    RunOvershootsExactly(config, calls);
    RunOvershootsExactly(config, calls[..i]);
    forall k | 0 <= k < i ensures !OvershootsAt(config, calls[..i], k) {
      assert calls[..i][..k] == calls[..k] && !OvershootsAt(config, calls, k);
    }
  }
}
