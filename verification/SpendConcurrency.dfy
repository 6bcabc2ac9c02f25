// Any number of callers of one spend-controlled object, interleaved step by
// step.  The lock is never waited for; a refused caller closes the object
// without holding the lock.
module SpendConcurrency {
  import opened Basics
  import opened SpendArithmetic
  import opened SpendControl

  type Caller = nat

  // Where a caller is inside `run`.
  datatype Pc =
    | Idle
    | Overlapped                          // lock refused, about to close the object
    | Holding(characters: nat)            // lock taken, closed check next
    | Admitted(characters: nat)           // closed check passed, limits next
    | InFlight(characters: nat)           // the provider is being called
    | Settling(call: Call)                // outcome known, failure not yet latched
    | Charging(call: Call)                // latched, total not yet updated
    | Logging(call: Call, record: Record) // total updated, record not yet written
    | Releasing                           // about to release the lock

  // `history` lists the calls in the order their records were written.
  datatype System = System(
    closed: Option<Reason>,
    calls: nat,
    total: nat,
    ledger: seq<Record>,
    lock: Option<Caller>,
    pcs: map<Caller, Pc>,
    history: seq<Call>)
  {
    function At(c: Caller): Pc {
      if c in pcs then pcs[c] else Idle
    }

    function Move(c: Caller, pc: Pc): System {
      this.(pcs := pcs[c := pc])
    }
  }

  datatype Step =
    | Acquire(c: Caller, characters: nat)
    | Close(c: Caller)
    | CheckClosed(c: Caller)
    | CheckLimits(c: Caller)
    | Answer(c: Caller, outcome: Outcome)
    | Latch(c: Caller)
    | Charge(c: Caller)
    | WriteRecord(c: Caller)
    | Release(c: Caller)

  function Estimated(config: Config, characters: nat): nat
    requires config.Valid()
  {
    EstimateInputTokens(characters, config.calibration)
  }

  // One atomic action of one caller; an action out of turn does nothing.
  ghost function Apply(config: Config, s: System, step: Step): System
    requires config.Valid()
  {
    match (step, s.At(step.c))
    case (Acquire(c, n), Idle) =>
      if s.lock == None then s.(lock := Some(c)).Move(c, Holding(n)) else s.Move(c, Overlapped)
    case (Close(c), Overlapped) => s.(closed := Some(ConcurrentCall)).Move(c, Idle)
    case (CheckClosed(c), Holding(n)) =>
      if s.closed.Some? then s.Move(c, Releasing) else s.Move(c, Admitted(n))
    case (CheckLimits(c), Admitted(n)) =>
      if Admits(config, s.total, config.WorstCase(Estimated(config, n)))
      then s.(calls := s.calls + 1).Move(c, InFlight(n))
      else s.(calls := s.calls + 1).Move(c, Settling(Call(n, Raised("not called"))))
    case (Answer(c, outcome), InFlight(n)) => s.Move(c, Settling(Call(n, outcome)))
    case (Latch(c), Settling(call)) =>
      var d := Decide(config, s.total, Estimated(config, call.characters), call.outcome);
      (if d.failure.Some? then s.(closed := d.failure) else s).Move(c, Charging(call))
    case (Charge(c), Charging(call)) =>
      var estimated := Estimated(config, call.characters);
      var d := Decide(config, s.total, estimated, call.outcome);
      s.(total := s.total + d.charged).Move(c, Logging(call, RecordOf(config, s.calls, s.total, estimated, d)))
    case (WriteRecord(c), Logging(call, record)) =>
      s.(ledger := s.ledger + [record], history := s.history + [call]).Move(c, Releasing)
    case (Release(c), Releasing) => s.(lock := None).Move(c, Idle)
    case _ => s
  }

  ghost function Execute(config: Config, steps: seq<Step>): System
    requires config.Valid()
  {
    if steps == [] then System(None, 0, 0, [], None, map[], [])
    else Apply(config, Execute(config, steps[..|steps| - 1]), steps[|steps| - 1])
  }

  predicate Holds(pc: Pc) {
    !pc.Idle? && !pc.Overlapped?
  }

  // The sequential controller that has run the recorded calls one by one.
  ghost function Sequential(config: Config, s: System): Controller
    requires config.Valid()
  {
    RunAll(config, OPEN, s.history)
  }

  // How far the shared fields are ahead of the sequential controller.
  ghost predicate Ahead(config: Config, s: System, pc: Pc)
    requires config.Valid()
  {
    var q := Sequential(config, s);
    match pc
    case Admitted(_) => q.closed.None? && s.calls == q.calls && s.total == q.total
    case InFlight(n) =>
      && q.closed.None? && s.calls == q.calls + 1 && s.total == q.total
      && Admits(config, s.total, config.WorstCase(Estimated(config, n)))
    case Settling(_) => q.closed.None? && s.calls == q.calls + 1 && s.total == q.total
    case Charging(call) =>
      && q.closed.None? && s.calls == q.calls + 1 && s.total == q.total
      && (RunOne(config, q, call).0.closed.Some? ==> s.closed.Some?)
    case Logging(call, record) =>
      var q' := RunOne(config, q, call).0;
      && q.closed.None? && s.calls == q'.calls && s.total == q'.total && q'.ledger == q.ledger + [record]
      && (q'.closed.Some? ==> s.closed.Some?)
    case _ => s.calls == q.calls && s.total == q.total
  }

  ghost predicate LockOk(s: System) {
    forall c: Caller :: Holds(s.At(c)) <==> s.lock == Some(c)
  }

  lemma StepKeepsLock(config: Config, s: System, step: Step)
    requires config.Valid() && LockOk(s)
    ensures LockOk(Apply(config, s, step))
  {
    assert forall other :: other != step.c ==> Apply(config, s, step).At(other) == s.At(other);
  }

  ghost predicate BooksOk(config: Config, s: System)
    requires config.Valid()
  {
    && s.ledger == Sequential(config, s).ledger
    && (Sequential(config, s).closed.Some? ==> s.closed.Some?)
    && Ahead(config, s, if s.lock.Some? then s.At(s.lock.value) else Idle)
  }

  lemma RecordedBooks(config: Config, s: System, c: Caller)
    requires config.Valid() && LockOk(s) && BooksOk(config, s) && s.At(c).Logging?
    ensures BooksOk(config, Apply(config, s, WriteRecord(c)))
  {
    var history := Apply(config, s, WriteRecord(c)).history;
    assert Holds(s.At(c));
    assert history[..|history| - 1] == s.history;
  }

  lemma StepKeepsBooks(config: Config, s: System, step: Step)
    requires config.Valid() && LockOk(s) && BooksOk(config, s)
    ensures BooksOk(config, Apply(config, s, step))
  {
    if step.WriteRecord? && s.At(step.c).Logging? {
      RecordedBooks(config, s, step.c);
    } else {
      assert Holds(s.At(step.c)) <==> s.lock == Some(step.c);
    }
  }

  ghost predicate Inv(config: Config, s: System)
    requires config.Valid()
  {
    LockOk(s) && BooksOk(config, s)
  }

  lemma StepKeepsInv(config: Config, s: System, step: Step)
    requires config.Valid() && Inv(config, s)
    ensures Inv(config, Apply(config, s, step))
  {
    StepKeepsLock(config, s, step);
    StepKeepsBooks(config, s, step);
  }

  lemma {:induction false} EveryInterleavingKeepsInv(config: Config, steps: seq<Step>)
    requires config.Valid()
    ensures Inv(config, Execute(config, steps))
  {
    if steps != [] {
      EveryInterleavingKeepsInv(config, steps[..|steps| - 1]);
      StepKeepsInv(config, Execute(config, steps[..|steps| - 1]), steps[|steps| - 1]);
    }
  }

  // At most one provider request is in flight.
  lemma OneRequestInFlight(config: Config, steps: seq<Step>, a: Caller, b: Caller)
    requires config.Valid()
    requires Execute(config, steps).At(a).InFlight? && Execute(config, steps).At(b).InFlight?
    ensures a == b
  {
    EveryInterleavingKeepsInv(config, steps);
    assert Holds(Execute(config, steps).At(a)) && Holds(Execute(config, steps).At(b));
  }

  // Whenever the lock is free, the books are those of running the recorded
  // calls one after the other.
  lemma InterleavingsAreSequential(config: Config, steps: seq<Step>)
    requires config.Valid() && Execute(config, steps).lock == None
    ensures var s := Execute(config, steps);
            var q := Sequential(config, s);
            && s.ledger == q.ledger && s.total == q.total && s.calls == q.calls
            && Sound(config, Controller(s.closed, s.calls, s.total, s.ledger))
  {
    EveryInterleavingKeepsInv(config, steps);
    EveryRunIsSound(config, Execute(config, steps).history);
    SoundClosed(config, Execute(config, steps).history);
  }

  lemma {:induction false} SoundClosed(config: Config, calls: seq<Call>)
    requires config.Valid()
    ensures LastFailed(RunAll(config, OPEN, calls).ledger) <==> RunAll(config, OPEN, calls).closed.Some?
  {
    if calls != [] {
      SoundClosed(config, calls[..|calls| - 1]);
    }
  }

  // The record that explains the current total: the last one written, or the
  // one about to be.
  ghost function Explains(s: System): Option<Record> {
    if s.lock.Some? && s.At(s.lock.value).Logging? then Some(s.At(s.lock.value).record)
    else if s.ledger != [] then Some(s.ledger[|s.ledger| - 1])
    else None
  }

  lemma SequentialRunLimit(config: Config, calls: seq<Call>)
    requires config.Valid()
    ensures var q := RunAll(config, OPEN, calls);
            q.total > config.limits.maxRunMicrousd ==>
              && q.closed.Some? && q.ledger != []
              && OverLimitAllowed(q.ledger[|q.ledger| - 1])
              && q.ledger[|q.ledger| - 1].runningTotalMicrousd == q.total
  {
    RunLimitHolds(config, calls);
    EveryRunIsSound(config, calls);
    var q := RunAll(config, OPEN, calls);
    if q.ledger != [] {
      assert q.ledger[..|q.ledger| - 1 + 1] == q.ledger;
    }
  }

  // The total is within the run limit, or explained by a call that failed after
  // spending.
  ghost predicate TotalExplained(config: Config, s: System) {
    s.total > config.limits.maxRunMicrousd ==>
      && s.closed.Some?
      && Explains(s).Some? && OverLimitAllowed(Explains(s).value)
      && Explains(s).value.runningTotalMicrousd == s.total
  }

  lemma LoggingIsExplained(config: Config, s: System, c: Caller)
    requires config.Valid() && Inv(config, s) && s.lock == Some(c) && s.At(c).Logging?
    ensures TotalExplained(config, s)
  {
    var call := s.At(c).call;
    var history := s.history + [call];
    assert history[..|history| - 1] == s.history;
    assert RunAll(config, OPEN, history) == RunOne(config, Sequential(config, s), call).0;
    SequentialRunLimit(config, history);
  }

  lemma SettledIsExplained(config: Config, s: System)
    requires config.Valid() && Inv(config, s) && (s.lock.Some? ==> !s.At(s.lock.value).Logging?)
    ensures TotalExplained(config, s)
  {
    SequentialRunLimit(config, s.history);
  }

  // So it is in every reachable state, also in the middle of a call.
  lemma RunLimitInEveryState(config: Config, steps: seq<Step>)
    requires config.Valid()
    ensures TotalExplained(config, Execute(config, steps))
  {
    var s := Execute(config, steps);
    EveryInterleavingKeepsInv(config, steps);
    if s.lock.Some? && s.At(s.lock.value).Logging? {
      LoggingIsExplained(config, s, s.lock.value);
    } else {
      SettledIsExplained(config, s);
    }
  }

  // ---- After a failure or an overlap ----

  lemma ClosedStaysClosed(config: Config, s: System, step: Step, c: Caller)
    requires config.Valid() && s.closed.Some?
    ensures Apply(config, s, step).closed.Some?
    ensures Apply(config, s, step).At(c).Admitted? ==> s.At(c) == Apply(config, s, step).At(c)
  {
  }

  lemma Prefix(config: Config, steps: seq<Step>, i: nat)
    requires config.Valid() && i < |steps|
    ensures Execute(config, steps[..i + 1]) == Apply(config, Execute(config, steps[..i]), steps[i])
  {
    assert steps[..i + 1][..i] == steps[..i];
  }

  // Once closed, a caller that has passed the closed check passed it before.
  lemma {:induction false} AdmittedBefore(config: Config, steps: seq<Step>, i: nat, j: nat, c: Caller)
    requires config.Valid() && i <= j <= |steps|
    requires Execute(config, steps[..i]).closed.Some?
    ensures Execute(config, steps[..j]).closed.Some?
    ensures Execute(config, steps[..j]).At(c).Admitted? ==>
      Execute(config, steps[..i]).At(c) == Execute(config, steps[..j]).At(c)
  {
    if i < j {
      AdmittedBefore(config, steps, i, j - 1, c);
      Prefix(config, steps, j - 1);
      ClosedStaysClosed(config, Execute(config, steps[..j - 1]), steps[j - 1], c);
    }
  }

  // After a failure or an overlap has closed the object, a request goes out
  // only for the one call that had passed the closed check by then.
  lemma NoRequestAfterClosing(config: Config, steps: seq<Step>, i: nat, j: nat, c: Caller)
    requires config.Valid() && i <= j < |steps|
    requires Execute(config, steps[..i]).closed.Some?
    requires !Execute(config, steps[..j]).At(c).InFlight? && Execute(config, steps[..j + 1]).At(c).InFlight?
    ensures Execute(config, steps[..i]).At(c) == Admitted(Execute(config, steps[..j + 1]).At(c).characters)
    ensures forall k :: i <= k <= j ==> forall other :: other != c ==> !Execute(config, steps[..k]).At(other).InFlight?
  {
    Prefix(config, steps, j);
    AdmittedBefore(config, steps, i, j, c);
    forall k | i <= k <= j
      ensures forall other :: other != c ==> !Execute(config, steps[..k]).At(other).InFlight?
    {
      AdmittedThroughout(config, steps, i, j, k, c);
      AdmittedExcludesOthers(config, steps[..k], c);
    }
  }

  lemma AdmittedExcludesOthers(config: Config, steps: seq<Step>, c: Caller)
    requires config.Valid() && Execute(config, steps).At(c).Admitted?
    ensures forall other :: other != c ==> !Execute(config, steps).At(other).InFlight?
  {
    EveryInterleavingKeepsInv(config, steps);
    assert Holds(Execute(config, steps).At(c));
    assert forall other: Caller :: Holds(Execute(config, steps).At(other)) ==> other == c;
  }

  lemma AdmittedThroughout(config: Config, steps: seq<Step>, i: nat, j: nat, k: nat, c: Caller)
    requires config.Valid() && i <= k <= j <= |steps|
    requires Execute(config, steps[..i]).closed.Some?
    requires Execute(config, steps[..j]).At(c).Admitted?
    ensures Execute(config, steps[..k]).At(c).Admitted?
  {
    AdmittedBefore(config, steps, i, k, c);
    AdmittedBefore(config, steps, k, j, c);
  }
}
