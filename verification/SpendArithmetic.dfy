// Money and token arithmetic of the paid evaluation calls: integers are
// micro-USD and tokens, rates and calibration values are exact.
module SpendArithmetic {
  import opened Basics

  const TOKENS_PER_MILLION := 1_000_000

  datatype Pricing = Pricing(
    version: string,
    inputMicrousdPerMillionTokens: nat,
    outputMicrousdPerMillionTokens: nat)

  datatype Calibration = Calibration(charactersPerToken: real, tolerance: real)
  {
    predicate Valid() {
      charactersPerToken > 0.0 && tolerance >= 0.0
    }
  }

  datatype SpendLimits = SpendLimits(maxCallMicrousd: int, maxRunMicrousd: int)
  {
    predicate Valid() {
      0 < maxCallMicrousd <= maxRunMicrousd
    }
  }

  // The least integer that is not below x.
  function Ceiling(x: real): (c: int)
    ensures x <= c as real < x + 1.0
  {
    -((-x).Floor)
  }

  lemma CeilingIsLeast(x: real, n: int)
    ensures x <= n as real <==> Ceiling(x) <= n
  {
  }

  function EstimateInputTokens(characters: nat, calibration: Calibration): (tokens: nat)
    requires calibration.Valid()
  {
    Ceiling(characters as real / calibration.charactersPerToken)
  }

  // The estimate is the least token count whose calibrated characters cover the text.
  lemma EstimateCoversText(characters: nat, calibration: Calibration, tokens: int)
    requires calibration.Valid()
    ensures EstimateInputTokens(characters, calibration) <= tokens
       <==> characters as real <= tokens as real * calibration.charactersPerToken
  {
    var (n, c) := (characters as real, calibration.charactersPerToken);
    assert n == (n / c) * c;
    CeilingIsLeast(n / c, tokens);
    if n / c <= tokens as real {
      MulMonotone(n / c, tokens as real, c);
    } else {
      StrictMulMonotone(tokens as real, n / c, c);
    }
  }

  function Numerator(pricing: Pricing, inputTokens: nat, outputTokens: nat): nat {
    inputTokens * pricing.inputMicrousdPerMillionTokens
    + outputTokens * pricing.outputMicrousdPerMillionTokens
  }

  // Ceiling division, written as the source writes it: Python's floor division
  // by a positive number agrees with Dafny's.
  function CostMicrousd(pricing: Pricing, inputTokens: nat, outputTokens: nat): (cost: nat)
    ensures (cost - 1) * TOKENS_PER_MILLION < Numerator(pricing, inputTokens, outputTokens) <= cost * TOKENS_PER_MILLION
  {
    var numerator: int := Numerator(pricing, inputTokens, outputTokens);
    var quotient := -numerator / TOKENS_PER_MILLION;
    assert quotient * TOKENS_PER_MILLION <= 0;
    -quotient
  }

  predicate ExceedsTolerance(estimated: nat, actual: nat, calibration: Calibration) {
    actual as real > estimated as real * (1.0 + calibration.tolerance)
  }

  lemma MulMonotone(a: real, b: real, c: real)
    requires a <= b && 0.0 <= c
    ensures a * c <= b * c
  {
    assert 0.0 <= (b - a) * c;
  }

  lemma StrictMulMonotone(a: real, b: real, c: real)
    requires a < b && 0.0 < c
    ensures a * c < b * c
  {
    assert 0.0 < (b - a) * c;
  }

  lemma NatMulMonotone(a: nat, b: nat, c: nat)
    requires a <= b
    ensures a * c <= b * c
  {
  }

  // Input within the estimate and output within the cap: the worst case covers
  // the charge.
  lemma WorstCaseCoversCharge(pricing: Pricing, worst: Pricing, estimated: nat, cap: nat, input: nat, output: nat)
    requires pricing.inputMicrousdPerMillionTokens <= worst.inputMicrousdPerMillionTokens
    requires pricing.outputMicrousdPerMillionTokens == worst.outputMicrousdPerMillionTokens
    requires input <= estimated && output <= cap
    ensures CostMicrousd(pricing, input, output) <= CostMicrousd(worst, estimated, cap)
  {
    NatMulMonotone(input, estimated, pricing.inputMicrousdPerMillionTokens);
    NatMulMonotone(pricing.inputMicrousdPerMillionTokens, worst.inputMicrousdPerMillionTokens, estimated);
    NatMulMonotone(output, cap, pricing.outputMicrousdPerMillionTokens);
    assert Numerator(pricing, input, output) <= Numerator(worst, estimated, cap);
  }

  // Input within the tolerance: the charge exceeds the worst case by no more
  // than the tolerance does, rounded up once.
  lemma ToleratedChargeBound(pricing: Pricing, worst: Pricing, calibration: Calibration,
                             estimated: nat, cap: nat, input: nat, output: nat)
    requires calibration.Valid()
    requires pricing.inputMicrousdPerMillionTokens <= worst.inputMicrousdPerMillionTokens
    requires pricing.outputMicrousdPerMillionTokens == worst.outputMicrousdPerMillionTokens
    requires !ExceedsTolerance(estimated, input, calibration) && output <= cap
    ensures var w := CostMicrousd(worst, estimated, cap);
            CostMicrousd(pricing, input, output) <= w + Ceiling(calibration.tolerance * w as real)
  {
    var w := CostMicrousd(worst, estimated, cap);
    ToleratedNumerator(pricing, worst, calibration, estimated, cap, input, output);
    ToleratedTotal(Numerator(pricing, input, output), Numerator(worst, estimated, cap), w, calibration.tolerance);
  }

  lemma ScaledByTolerance(n: real, w: real, t: real)
    requires n <= w * 1000000.0 && t >= 0.0
    ensures n * (1.0 + t) <= (w + t * w) * 1000000.0
  {
    MulMonotone(n, w * 1000000.0, 1.0 + t);
    assert (w * 1000000.0) * (1.0 + t) == (w + t * w) * 1000000.0;
  }

  lemma ToleratedTotal(charged: nat, n: nat, w: nat, t: real)
    requires n <= w * TOKENS_PER_MILLION && t >= 0.0 && charged as real <= n as real * (1.0 + t)
    ensures charged <= (w + Ceiling(t * w as real)) * TOKENS_PER_MILLION
  {
    var bound := w + Ceiling(t * w as real);
    assert n as real <= w as real * 1000000.0;
    ScaledByTolerance(n as real, w as real, t);
    assert bound as real >= w as real + t * w as real;
    assert charged as real <= bound as real * 1000000.0;
  }

  lemma {:induction false} RealOfProduct(a: nat, b: nat)
    ensures (a * b) as real == a as real * b as real
  {
    if a > 0 {
      RealOfProduct(a - 1, b);
      assert (a - 1) * b + b == a * b;
      assert (a - 1) as real == a as real - 1.0;
      assert (a as real - 1.0) * b as real + b as real == a as real * b as real;
    }
  }

  lemma ToleratedInput(k: real, input: nat, estimated: nat, rate: nat, worstRate: nat)
    requires k >= 1.0 && rate <= worstRate && input as real <= estimated as real * k
    ensures (input * rate) as real <= (estimated * worstRate) as real * k
  {
    var (i, e, p, w) := (input as real, estimated as real, rate as real, worstRate as real);
    RealOfProduct(input, rate);
    RealOfProduct(estimated, worstRate);
    MulMonotone(i, e * k, p);
    MulMonotone(p, w, e * k);
    assert (e * k) * p == p * (e * k) && (e * k) * w == w * (e * k);
    assert (e * k) * w == (e * w) * k;
  }

  lemma CappedOutput(k: real, output: nat, cap: nat, rate: nat)
    requires k >= 1.0 && output <= cap
    ensures (output * rate) as real <= (cap * rate) as real * k
  {
    NatMulMonotone(output, cap, rate);
    MulMonotone(1.0, k, (cap * rate) as real);
  }

  lemma ToleratedNumerator(pricing: Pricing, worst: Pricing, calibration: Calibration,
                           estimated: nat, cap: nat, input: nat, output: nat)
    requires calibration.Valid()
    requires pricing.inputMicrousdPerMillionTokens <= worst.inputMicrousdPerMillionTokens
    requires pricing.outputMicrousdPerMillionTokens == worst.outputMicrousdPerMillionTokens
    requires !ExceedsTolerance(estimated, input, calibration) && output <= cap
    ensures Numerator(pricing, input, output) as real
         <= Numerator(worst, estimated, cap) as real * (1.0 + calibration.tolerance)
  {
    var k := 1.0 + calibration.tolerance;
    ToleratedInput(k, input, estimated, pricing.inputMicrousdPerMillionTokens, worst.inputMicrousdPerMillionTokens);
    CappedOutput(k, output, cap, pricing.outputMicrousdPerMillionTokens);
    var x := (estimated * worst.inputMicrousdPerMillionTokens) as real;
    var y := (cap * pricing.outputMicrousdPerMillionTokens) as real;
    assert x * k + y * k == (x + y) * k;
  }
}
