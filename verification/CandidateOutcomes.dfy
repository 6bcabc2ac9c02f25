// What an adapter is shown and what an execution leaves behind, written out in
// the terms of the configuration.
module CandidateOutcomes {
  import opened Basics
  import opened CandidateExecutor

  // ---- The configuration of a case ----

  predicate FirstSubject(subjects: seq<Subject>, id: string, k: nat) {
    k < |subjects| && subjects[k].caseId == id && forall j :: 0 <= j < k ==> subjects[j].caseId != id
  }

  predicate FirstLimit(limits: seq<Limit>, id: string, k: nat) {
    k < |limits| && limits[k].caseId == id && forall j :: 0 <= j < k ==> limits[j].caseId != id
  }

  lemma {:induction false} SubjectExactly(subjects: seq<Subject>, id: string) returns (k: nat)
    ensures SubjectFor(subjects, id).Some? ==> FirstSubject(subjects, id, k) && SubjectFor(subjects, id) == Some(subjects[k])
    ensures SubjectFor(subjects, id).None? ==> forall s :: s in subjects ==> s.caseId != id
  {
    k := 0;
    if subjects != [] && subjects[0].caseId != id {
      var rest := SubjectExactly(subjects[1..], id);
      k := rest + 1;
      assert subjects == [subjects[0]] + subjects[1..];
    }
  }

  lemma {:induction false} LimitExactly(limits: seq<Limit>, id: string) returns (k: nat)
    ensures LimitFor(limits, id).Some? ==> FirstLimit(limits, id, k) && LimitFor(limits, id) == Some(limits[k])
    ensures LimitFor(limits, id).None? ==> forall l :: l in limits ==> l.caseId != id
  {
    k := 0;
    if limits != [] && limits[0].caseId != id {
      var rest := LimitExactly(limits[1..], id);
      k := rest + 1;
      assert limits == [limits[0]] + limits[1..];
    }
  }

  // The case may be executed: it is configured with its own side effects and
  // cost, permits one model call in an analysis or none under a policy that has
  // an adapter, and its sources are in order.
  ghost predicate Executable(setup: Setup, c: Case) {
    && (exists k: nat :: FirstLimit(setup.limits, c.id, k)
          && setup.limits[k].effects == c.effects && setup.limits[k].maximumCost == c.maximumCost)
    && setup.modelCalls in c.effects
    && ((c.runMode == "analysis" && c.effects[setup.modelCalls] == 1)
        || (c.runMode == "policy" && c.effects[setup.modelCalls] == 0 && setup.hasPolicyAdapter))
    && setup.sourcesOk(c)
  }

  function AdapterOf(c: Case): Adapter {
    if c.runMode == "policy" then Policy else Analysis
  }

  lemma ModesDiffer()
    ensures "analysis" != "policy"
  {
    assert "analysis"[0] != "policy"[0];
  }

  lemma PreparedExactly(setup: Setup, c: Case)
    ensures Prepare(setup, c).Ok? <==> Executable(setup, c)
    ensures Executable(setup, c) ==> Prepare(setup, c).value.1 == AdapterOf(c)
    ensures Executable(setup, c) ==>
              Prepare(setup, c).value.0.effects == c.effects && Prepare(setup, c).value.0.maximumCost == c.maximumCost
  {
    ModesDiffer();
    var k := LimitExactly(setup.limits, c.id);
    if Executable(setup, c) {
      var j: nat :| FirstLimit(setup.limits, c.id, j)
               && setup.limits[j].effects == c.effects && setup.limits[j].maximumCost == c.maximumCost;
      assert setup.limits[j] in setup.limits;
      assert j == k;
    }
  }

  // ---- The answer of an adapter ----

  predicate WithinBudget(o: Observation, c: Case, setup: Setup) {
    && setup.strip(o.boundary) != "" && o.effects == c.effects && o.effects.Keys == setup.fields
    && (forall k :: k in c.effects ==> c.effects[k] >= 0) && 0.0 <= o.cost && o.cost <= c.maximumCost
  }

  predicate Answers(setup: Setup, c: Case, response: Response) {
    response.Some? && WithinBudget(response.value.0, c, setup) && setup.strip(response.value.1) != ""
  }

  // The observation that is passed on: the adapter's, with its boundary stripped.
  predicate PassedOn(given: Observation, kept: Observation, setup: Setup) {
    && kept.boundary == setup.strip(given.boundary) && kept.effects == given.effects && kept.cost == given.cost
    && kept.groundTruthIds == given.groundTruthIds && kept.sources == given.sources
  }

  lemma AnswerExactly(setup: Setup, c: Case, limit: Limit, response: Response)
    requires limit.effects == c.effects && limit.maximumCost == c.maximumCost
    ensures Accept(setup, limit, response).Ok? <==> Answers(setup, c, response)
    ensures Answers(setup, c, response) ==>
              var (o, output) := Accept(setup, limit, response).value;
              PassedOn(response.value.0, o, setup) && output == response.value.1
  {
  }

  // ---- One execution ----

  // The receipt of a case names its configured subject, the digest of what was
  // written and the path of the case.
  ghost predicate ReceiptFor(r: Receipt, setup: Setup, c: Case, output: string) {
    && r.caseId == c.id && r.digest == setup.digest(output) && r.configDigest == setup.configDigest
    && setup.path(c.id) == Some(r.path)
    && exists k: nat :: FirstSubject(setup.subjects, c.id, k) && r.kind == setup.subjects[k].kind && r.subjectId == setup.subjects[k].id
  }

  // Nothing stands in the way of the execution: the case is mapped to a subject
  // and a path, was neither executed nor reserved, and the path is free.
  ghost predicate Free(setup: Setup, core: Core, c: Case) {
    && (exists s :: s in setup.subjects && s.caseId == c.id) && setup.path(c.id).Some?
    && c.id !in core.receipts && c.id !in core.reserved && setup.path(c.id).value !in core.files
  }

  lemma FreeExactly(setup: Setup, core: Core, c: Case)
    ensures ReserveEffect(setup, core, c).1.Reserved? <==> Free(setup, core, c)
    ensures !Free(setup, core, c) ==> ReserveEffect(setup, core, c).1.Finished? && ReserveEffect(setup, core, c).0 == core
    ensures Free(setup, core, c) ==>
              var stage := ReserveEffect(setup, core, c).1;
              && SubjectFor(setup.subjects, c.id) == Some(stage.subject) && setup.path(c.id) == Some(stage.path)
              && ReserveEffect(setup, core, c).0 == core.(reserved := core.reserved + {c.id})
  {
    var k := SubjectExactly(setup.subjects, c.id);
    if SubjectFor(setup.subjects, c.id).Some? {
      assert setup.subjects[k] in setup.subjects;
    }
  }

  // On its own an execution succeeds exactly when the case is free and
  // executable, the adapter answers within the budget and the output is written
  // to the end.  It then leaves the output under the path of the case and one
  // receipt for it; a failure leaves no receipt, and at most a partial file.
  lemma ExecutionExactly(setup: Setup, core: Core, c: Case, response: Response, complete: bool, partial: string)
    ensures var (after, r) := Alone(setup, core, c, response, complete, partial);
            && (r.Ok? <==> Free(setup, core, c) && Executable(setup, c) && Answers(setup, c, response) && complete)
            && after.reserved == core.reserved
            && (r.Ok? ==>
                  && PassedOn(response.value.0, r.value, setup)
                  && after.files == core.files[setup.path(c.id).value := response.value.1]
                  && after.receipts.Keys == core.receipts.Keys + {c.id}
                  && (forall id :: id in core.receipts ==> after.receipts[id] == core.receipts[id])
                  && ReceiptFor(after.receipts[c.id], setup, c, response.value.1))
            && (r.Err? ==>
                  && after.receipts == core.receipts
                  && after.files == if Free(setup, core, c) && Executable(setup, c) && Answers(setup, c, response)
                                    then core.files[setup.path(c.id).value := partial] else core.files)
  {
    FreeExactly(setup, core, c);
    PreparedExactly(setup, c);
    var k := SubjectExactly(setup.subjects, c.id);
    if Executable(setup, c) {
      AnswerExactly(setup, c, Prepare(setup, c).value.0, response);
    }
    if Free(setup, core, c) && Executable(setup, c) && Answers(setup, c, response) && complete {
      var after := Alone(setup, core, c, response, complete, partial).0;
      assert FirstSubject(setup.subjects, c.id, k);
      assert ReceiptFor(after.receipts[c.id], setup, c, response.value.1);
    }
  }

  // ---- Every run ----

  // An adapter only ever sees cases that may be executed, each its own kind.
  ghost predicate Shown(setup: Setup, s: System, call: (string, Adapter)) {
    exists t :: 0 <= t < |s.threads| && s.threads[t].task.id == call.0 && Executable(setup, s.threads[t].task)
                && AdapterOf(s.threads[t].task) == call.1
  }

  lemma {:induction false} AdaptersSeeExecutableCases(setup: Setup, s: System, steps: seq<Step>, call: (string, Adapter))
    requires Start(s) && call in Execute(setup, s, steps).calls
    ensures Shown(setup, s, call)
  {
    var n := |steps| - 1;
    var before := Execute(setup, s, steps[..n]);
    if call in before.calls {
      AdaptersSeeExecutableCases(setup, s, steps[..n], call);
    } else {
      var t := steps[n].thread;
      TasksAreFixed(setup, s, steps[..n]);
      PreparedExactly(setup, s.threads[t].task);
      assert s.threads[t].task.id == call.0 && AdapterOf(s.threads[t].task) == call.1;
    }
  }

  // A running execution keeps the subject and the path that its case has.
  predicate Mapped(setup: Setup, th: Thread) {
    th.stage.Reserved? || th.stage.Answered? || th.stage.Stored? ==>
      SubjectFor(setup.subjects, th.task.id) == Some(th.stage.subject) && setup.path(th.task.id) == Some(th.stage.path)
  }

  ghost predicate Named(setup: Setup, r: Receipt, id: string) {
    && setup.path(id) == Some(r.path) && r.configDigest == setup.configDigest
    && SubjectFor(setup.subjects, id).Some?
    && r.kind == SubjectFor(setup.subjects, id).value.kind && r.subjectId == SubjectFor(setup.subjects, id).value.id
  }

  ghost predicate AllMapped(setup: Setup, s: System) {
    && (forall t :: 0 <= t < |s.threads| ==> Mapped(setup, s.threads[t]))
    && forall id :: id in s.core.receipts ==> Named(setup, s.core.receipts[id], id)
  }

  lemma StepKeepsMapping(setup: Setup, s: System, step: Step)
    requires AllMapped(setup, s)
    ensures AllMapped(setup, Apply(setup, s, step))
  {
    if Enabled(s, step) {
      var after := Apply(setup, s, step);
      if !step.Intrude? {
        assert Mapped(setup, s.threads[step.thread]);
        MovedIsMapped(setup, s, step);
      }
      forall t | 0 <= t < |after.threads| ensures Mapped(setup, after.threads[t]) {
        assert Mapped(setup, s.threads[t]);
      }
    }
  }

  lemma MovedIsMapped(setup: Setup, s: System, step: Step)
    requires Enabled(s, step) && !step.Intrude? && Mapped(setup, s.threads[step.thread])
    ensures Mapped(setup, Apply(setup, s, step).threads[step.thread])
  {
  }

  lemma {:induction false} RunsKeepMapping(setup: Setup, s: System, steps: seq<Step>)
    requires Start(s)
    ensures AllMapped(setup, Execute(setup, s, steps))
  {
    if steps != [] {
      RunsKeepMapping(setup, s, steps[..|steps| - 1]);
      StepKeepsMapping(setup, Execute(setup, s, steps[..|steps| - 1]), steps[|steps| - 1]);
    }
  }

  // Whatever the interleaving, a receipt names the first subject that the
  // configuration maps to its case, and the digest of the file under its path.
  lemma ReceiptsNameTheirSubjects(setup: Setup, s: System, steps: seq<Step>, id: string) returns (k: nat)
    requires Start(s) && id in Execute(setup, s, steps).core.receipts
    ensures var (core, r) := (Execute(setup, s, steps).core, Execute(setup, s, steps).core.receipts[id]);
            && FirstSubject(setup.subjects, id, k) && r.kind == setup.subjects[k].kind && r.subjectId == setup.subjects[k].id
            && r.caseId == id && r.configDigest == setup.configDigest && setup.path(id) == Some(r.path)
            && r.path in core.files && r.digest == setup.digest(core.files[r.path])
  {
    RunsKeepMapping(setup, s, steps);
    ReceiptsBindCreatedFiles(setup, s, steps, id);
    k := SubjectExactly(setup.subjects, id);
    assert Named(setup, Execute(setup, s, steps).core.receipts[id], id);
  }
}
