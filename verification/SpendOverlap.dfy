// What a single caller does, what an overlap does, and that nothing but an
// overlap tells interleaved callers from sequential ones.
module SpendOverlap {
  import opened Basics
  import opened SpendArithmetic
  import opened SpendControl
  import opened SpendConcurrency

  function Shared(s: System): Controller {
    Controller(s.closed, s.calls, s.total, s.ledger)
  }

  // ---- A caller that nobody overlaps ----

  function Turn(c: Caller, call: Call): seq<Step> {
    [Acquire(c, call.characters), CheckClosed(c), CheckLimits(c), Answer(c, call.outcome), Latch(c), Charge(c),
     WriteRecord(c), Release(c)]
  }

  ghost function Take(config: Config, s: System, steps: seq<Step>): System
    requires config.Valid()
    decreases |steps|
  {
    if steps == [] then s else Take(config, Apply(config, s, steps[0]), steps[1..])
  }

  // The shared fields become those that `run` leaves when it is called alone.
  ghost predicate CalledAlone(config: Config, s: System, after: System, c: Caller, call: Call)
    requires config.Valid()
  {
    && Shared(after) == RunOne(config, Shared(s), call).0
    && after.lock == None && after.At(c).Idle?
    && (s.closed.None? ==> |after.history| == |s.history| + 1 && after.history[|s.history|].characters == call.characters)
    && forall other :: other != c ==> after.At(other) == s.At(other)
  }

  lemma Admission(config: Config, s: System, c: Caller, call: Call) returns (t: System)
    requires config.Valid() && s.lock == None && s.At(c).Idle? && s.closed.None?
    ensures t == Apply(config, Apply(config, Apply(config, s, Acquire(c, call.characters)), CheckClosed(c)), CheckLimits(c))
    ensures t.closed.None? && t.calls == s.calls + 1 && t.total == s.total && t.ledger == s.ledger && t.history == s.history
    ensures t.lock == Some(c) && forall other :: other != c ==> t.At(other) == s.At(other)
    ensures t.At(c) == if Admits(config, s.total, config.WorstCase(Estimated(config, call.characters)))
                       then InFlight(call.characters) else Settling(Call(call.characters, Raised("not called")))
  {
    var a := Apply(config, s, Acquire(c, call.characters));
    var b := Apply(config, a, CheckClosed(c));
    assert a.At(c) == Holding(call.characters) && b.At(c) == Admitted(call.characters);
    t := Apply(config, b, CheckLimits(c));
  }

  lemma Settlement(config: Config, s: System, t: System, c: Caller, call: Call)
    requires config.Valid() && s.closed.None? && t.closed.None? && t.At(c) == Settling(call)
    requires t.calls == s.calls + 1 && t.total == s.total && t.ledger == s.ledger && t.history == s.history
    requires forall other :: other != c ==> t.At(other) == s.At(other)
    ensures CalledAlone(config, s, Ended(config, t, c), c, call)
  {
    var a := Apply(config, t, Latch(c));
    var b := Apply(config, a, Charge(c));
    var d := Apply(config, b, WriteRecord(c));
    assert a.At(c) == Charging(call) && b.At(c).Logging? && d.At(c) == Releasing;
  }

  // A refused call does not depend on what the provider would have answered.
  lemma RefusedAlike(config: Config, s: Controller, call: Call)
    requires config.Valid() && s.closed.None?
    requires !Admits(config, s.total, config.WorstCase(Estimated(config, call.characters)))
    ensures RunOne(config, s, call).0 == RunOne(config, s, Call(call.characters, Raised("not called"))).0
  {
  }

  lemma TakesFour(config: Config, s: System, a: Step, b: Step, c: Step, d: Step, rest: seq<Step>)
    requires config.Valid()
    ensures Take(config, s, [a, b, c, d] + rest)
            == Take(config, Apply(config, Apply(config, Apply(config, Apply(config, s, a), b), c), d), rest)
  {
    var steps := [a, b, c, d] + rest;
    var (s1, s2, s3) := (Apply(config, s, a), Apply(config, Apply(config, s, a), b), Apply(config, Apply(config, Apply(config, s, a), b), c));
    assert steps[1..] == [b, c, d] + rest && steps[1..][1..] == [c, d] + rest;
    assert steps[1..][1..][1..] == [d] + rest && steps[1..][1..][1..][1..] == rest;
    assert Take(config, s, steps) == Take(config, s1, steps[1..]);
    assert Take(config, s1, steps[1..]) == Take(config, s2, steps[1..][1..]);
    assert Take(config, s2, steps[1..][1..]) == Take(config, s3, steps[1..][1..][1..]);
  }

  ghost function Begun(config: Config, s: System, c: Caller, call: Call): System
    requires config.Valid()
  {
    Apply(config, Apply(config, Apply(config, Apply(config, s, Acquire(c, call.characters)), CheckClosed(c)), CheckLimits(c)),
          Answer(c, call.outcome))
  }

  ghost function Ended(config: Config, s: System, c: Caller): System
    requires config.Valid()
  {
    Apply(config, Apply(config, Apply(config, Apply(config, s, Latch(c)), Charge(c)), WriteRecord(c)), Release(c))
  }

  lemma TurnSteps(config: Config, s: System, c: Caller, call: Call)
    requires config.Valid()
    ensures Take(config, s, Turn(c, call)) == Ended(config, Begun(config, s, c, call), c)
  {
    var last := [Latch(c), Charge(c), WriteRecord(c), Release(c)];
    assert Turn(c, call) == [Acquire(c, call.characters), CheckClosed(c), CheckLimits(c), Answer(c, call.outcome)] + last;
    assert last == last + [];
    TakesFour(config, s, Acquire(c, call.characters), CheckClosed(c), CheckLimits(c), Answer(c, call.outcome), last);
    TakesFour(config, Begun(config, s, c, call), Latch(c), Charge(c), WriteRecord(c), Release(c), []);
  }

  lemma OpenTurn(config: Config, s: System, c: Caller, call: Call)
    requires config.Valid() && s.lock == None && s.At(c).Idle? && s.closed.None?
    ensures CalledAlone(config, s, Ended(config, Begun(config, s, c, call), c), c, call)
  {
    var t := Admission(config, s, c, call);
    if t.At(c).InFlight? {
      Settlement(config, s, Begun(config, s, c, call), c, call);
    } else {
      Settlement(config, s, Begun(config, s, c, call), c, Call(call.characters, Raised("not called")));
      RefusedAlike(config, Shared(s), call);
    }
  }

  lemma ClosedTurn(config: Config, s: System, c: Caller, call: Call)
    requires config.Valid() && s.lock == None && s.At(c).Idle? && s.closed.Some?
    ensures CalledAlone(config, s, Ended(config, Begun(config, s, c, call), c), c, call)
  {
    var t := Rejection(config, s, c, call);
    assert Apply(config, Apply(config, Apply(config, t, Latch(c)), Charge(c)), WriteRecord(c)) == t;
  }

  // With the lock free, one caller after another is the sequential controller,
  // closed before or not, admitted or refused.
  lemma AloneIsOneCall(config: Config, s: System, c: Caller, call: Call)
    requires config.Valid() && s.lock == None && s.At(c).Idle?
    ensures CalledAlone(config, s, Take(config, s, Turn(c, call)), c, call)
  {
    TurnSteps(config, s, c, call);
    if s.closed.None? { OpenTurn(config, s, c, call); } else { ClosedTurn(config, s, c, call); }
  }

  lemma Rejection(config: Config, s: System, c: Caller, call: Call) returns (t: System)
    requires config.Valid() && s.lock == None && s.At(c).Idle? && s.closed.Some?
    ensures t == Begun(config, s, c, call)
    ensures t.At(c) == Releasing && Shared(t) == Shared(s) && t.history == s.history
    ensures forall other :: other != c ==> t.At(other) == s.At(other)
  {
    var a := Apply(config, s, Acquire(c, call.characters));
    var b := Apply(config, a, CheckClosed(c));
    assert a.At(c) == Holding(call.characters) && b.At(c) == Releasing;
    t := Apply(config, Apply(config, b, CheckLimits(c)), Answer(c, call.outcome));
  }

  // ---- Overlaps ----

  // The i-th step starts a call while another caller holds the lock.
  ghost predicate Overlaps(config: Config, steps: seq<Step>, i: nat)
    requires config.Valid()
  {
    && i < |steps| && steps[i].Acquire?
    && Execute(config, steps[..i]).At(steps[i].c).Idle? && Execute(config, steps[..i]).lock.Some?
  }

  // An overlapping caller gets no further than to close the object, and when it
  // is back the object is closed.
  lemma {:induction false} OverlapsClose(config: Config, steps: seq<Step>, i: nat, j: nat)
    requires config.Valid() && Overlaps(config, steps, i) && i < j <= |steps|
    ensures Execute(config, steps[..j]).At(steps[i].c).Overlapped? || Execute(config, steps[..j]).closed.Some?
  {
    Prefix(config, steps, j - 1);
    if i + 1 < j {
      OverlapsClose(config, steps, i, j - 1);
      if Execute(config, steps[..j - 1]).closed.Some? {
        ClosedStaysClosed(config, Execute(config, steps[..j - 1]), steps[j - 1], steps[i].c);
      } else {
        OverlapWaits(config, Execute(config, steps[..j - 1]), steps[j - 1], steps[i].c);
      }
    }
  }

  lemma OverlapWaits(config: Config, s: System, step: Step, c: Caller)
    requires config.Valid() && s.At(c).Overlapped?
    ensures var after := Apply(config, s, step);
            after.At(c).Overlapped? || (after.closed == Some(ConcurrentCall) && after.At(c).Idle?
                                        && after == s.(closed := after.closed, pcs := after.pcs))
  {
  }

  // The latched reason is that of the sequential controller, from the moment at
  // which a failing call latches it.
  ghost predicate LatchedInTurn(config: Config, s: System)
    requires config.Valid()
  {
    var q := Sequential(config, s);
    && (forall c: Caller :: !s.At(c).Overlapped?)
    && match if s.lock.Some? then s.At(s.lock.value) else Idle
       case Charging(call) => s.closed == RunOne(config, q, call).0.closed
       case Logging(call, _) => s.closed == RunOne(config, q, call).0.closed
       case _ => s.closed == q.closed
  }

  lemma StepLatchesInTurn(config: Config, s: System, step: Step)
    requires config.Valid() && Inv(config, s) && LatchedInTurn(config, s)
    requires !(step.Acquire? && s.At(step.c).Idle? && s.lock.Some?)
    ensures LatchedInTurn(config, Apply(config, s, step))
  {
    var after := Apply(config, s, step);
    assert Holds(s.At(step.c)) <==> s.lock == Some(step.c);
    assert forall other :: other != step.c ==> after.At(other) == s.At(other);
    if step.WriteRecord? && s.At(step.c).Logging? {
      assert after.history[..|after.history| - 1] == s.history;
    }
  }

  lemma {:induction false} EveryRunLatchesInTurn(config: Config, steps: seq<Step>)
    requires config.Valid() && forall i: nat :: !Overlaps(config, steps, i)
    ensures LatchedInTurn(config, Execute(config, steps))
  {
    if steps != [] {
      var n := |steps| - 1;
      forall i: nat ensures !Overlaps(config, steps[..n], i) {
        if i < n { assert steps[..n][..i] == steps[..i] && !Overlaps(config, steps, i); }
      }
      EveryRunLatchesInTurn(config, steps[..n]);
      EveryInterleavingKeepsInv(config, steps[..n]);
      assert !Overlaps(config, steps, n);
      StepLatchesInTurn(config, Execute(config, steps[..n]), steps[n]);
    }
  }

  // Callers that never overlap are the sequential controller, with its very
  // reason for being closed; after an overlap the object is closed.
  lemma OnlyOverlapsTell(config: Config, steps: seq<Step>)
    requires config.Valid() && Execute(config, steps).lock == None
    ensures (forall i: nat :: !Overlaps(config, steps, i)) ==>
              Shared(Execute(config, steps)) == Sequential(config, Execute(config, steps))
    ensures (exists i: nat :: Overlaps(config, steps, i) && Execute(config, steps).At(steps[i].c).Idle?) ==>
              Execute(config, steps).closed.Some?
  {
    InterleavingsAreSequential(config, steps);
    if forall i: nat :: !Overlaps(config, steps, i) {
      EveryRunLatchesInTurn(config, steps);
    } else {
      assert steps[..|steps|] == steps;
      forall i: nat | Overlaps(config, steps, i) && Execute(config, steps).At(steps[i].c).Idle?
        ensures Execute(config, steps).closed.Some?
      {
        OverlapsClose(config, steps, i, |steps|);
      }
    }
  }
}
