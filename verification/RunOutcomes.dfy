// What the runner reports of a case: exactly when an answer is accepted, and
// what becomes of it.
module RunOutcomes {
  import opened Basics
  import opened JsonTree
  import opened EvaluationRunner

  // Texts are kept one by one, stripped.
  predicate KeptTexts(given: seq<string>, kept: seq<string>, env: Env) {
    |kept| == |given| && forall i :: 0 <= i < |given| ==> kept[i] == env.strip(given[i])
  }

  // None is blank and no two are the same, once stripped.
  predicate ProperTexts(given: seq<string>, env: Env) {
    && (forall i :: 0 <= i < |given| ==> env.strip(given[i]) != "")
    && forall i, j :: 0 <= i < j < |given| ==> env.strip(given[i]) != env.strip(given[j])
  }

  predicate ProperObservation(o: Observation, env: Env) {
    && env.strip(o.boundary) != ""
    && o.effects.Keys == env.fields
    && (forall name :: name in env.fields ==> o.effects[name].Int? && o.effects[name].i >= 0)
    && ((o.cost.Int? && o.cost.i >= 0) || (o.cost.Float? && o.cost.r >= 0.0))
    && ProperTexts(o.groundTruthIds, env) && ProperTexts(o.sources, env)
  }

  predicate KeptObservation(given: Observation, kept: Observation, env: Env) {
    && kept.boundary == env.strip(given.boundary) && kept.effects == given.effects && kept.cost == given.cost
    && KeptTexts(given.groundTruthIds, kept.groundTruthIds, env) && KeptTexts(given.sources, kept.sources, env)
  }

  lemma TextsExactly(given: seq<string>, env: Env)
    ensures DistinctTexts(given, env).Some? <==> ProperTexts(given, env)
    ensures ProperTexts(given, env) ==> KeptTexts(given, DistinctTexts(given, env).value, env)
  {
    var stripped := EvaluationRunner.Stripped(given, env);
    if ProperTexts(given, env) {
      forall i | 0 <= i < |stripped| ensures stripped[i] != "" {
        assert stripped[i] == env.strip(given[i]);
      }
    }
    if Distinct(stripped) {
      forall i, j | 0 <= i < j < |given| ensures env.strip(given[i]) != env.strip(given[j]) {
        assert stripped[i] != stripped[j];
      }
    }
    if forall i :: 0 <= i < |stripped| ==> stripped[i] != "" {
      forall i | 0 <= i < |given| ensures env.strip(given[i]) != "" {
        assert stripped[i] == env.strip(given[i]);
      }
    }
  }

  lemma ObservationExactly(o: Observation, env: Env)
    ensures ValidatedObservation(o, env).Some? <==> ProperObservation(o, env)
    ensures ProperObservation(o, env) ==> KeptObservation(o, ValidatedObservation(o, env).value, env)
  {
    TextsExactly(o.groundTruthIds, env);
    TextsExactly(o.sources, env);
    if o.effects.Keys == env.fields {
      assert (exists k :: k in o.effects && !Count(o.effects[k]))
        <==> !forall name :: name in env.fields ==> o.effects[name].Int? && o.effects[name].i >= 0;
    }
  }

  // A result of a run that reports the executor's own answer to the case.
  ghost predicate Reports(r: CaseResult, c: Case, executor: Executor, env: Env) {
    && r.caseId == c.id && r.version == c.version && r.sha256 == env.digest(c) && !r.reused
    && executor(c).Some? && ProperObservation(executor(c).value, env)
    && KeptObservation(executor(c).value, r.observation, env)
  }

  lemma CaseExactly(c: Case, executor: Executor, env: Env)
    ensures Outcome(c, executor, env).Ok? <==> executor(c).Some? && ProperObservation(executor(c).value, env)
    ensures Outcome(c, executor, env).Ok? ==> Reports(FreshResult(c, executor, env), c, executor, env)
  {
    if executor(c).Some? { ObservationExactly(executor(c).value, env); }
  }

  // A result that was taken over from the earlier report.
  ghost predicate TakenOver(r: CaseResult, from: CaseResult, c: Case, env: Env) {
    && from.caseId == c.id && from.version == c.version && from.sha256 == env.digest(c)
    && ProperObservation(from.observation, env) && KeptObservation(from.observation, r.observation, env)
    && r.caseId == c.id && r.version == from.version && r.sha256 == from.sha256 && r.reused
  }

  lemma {:induction false} FoundCase(cases: seq<Case>, id: string)
    ensures match FindCase(cases, id)
            case Some(c) => c in cases && c.id == id
            case None => forall c :: c in cases ==> c.id != id
  {
    if cases != [] {
      var n := |cases| - 1;
      FoundCase(cases[..n], id);
      assert cases == cases[..n] + [cases[n]];
    }
  }

  ghost predicate FromReport(results: seq<CaseResult>, selected: seq<Case>, r: CaseResult, id: string, env: Env) {
    exists k, c :: 0 <= k < |results| && c in selected && c.id == id && TakenOver(r, results[k], c, env)
  }

  // What is resumed are results of the report for selected cases, of the same
  // version and digest, as the report has them.
  lemma {:induction false} ResumedAreTakenOver(results: seq<CaseResult>, selected: seq<Case>, env: Env, id: string)
    requires ResumeFrom(results, selected, env).Ok? && id in ResumeFrom(results, selected, env).value
    ensures FromReport(results, selected, ResumeFrom(results, selected, env).value[id], id, env)
  {
    var n := |results| - 1;
    var before := ResumeFrom(results[..n], selected, env).value;
    var after := ResumeFrom(results, selected, env).value;
    FoundCase(selected, results[n].caseId);
    ObservationExactly(results[n].observation, env);
    if id in before && before[id] == after[id] {
      ResumedAreTakenOver(results[..n], selected, env, id);
      var k, c :| 0 <= k < n && c in selected && c.id == id && TakenOver(after[id], results[..n][k], c, env);
      assert results[k] == results[..n][k];
    } else {
      var c := FindCase(selected, results[n].caseId).value;
      assert TakenOver(after[id], results[n], c, env);
    }
  }

  // Reading a report fails exactly for a selected case that changed, that is
  // listed twice, or whose observation is not proper.
  ghost predicate Readable(results: seq<CaseResult>, selected: seq<Case>, env: Env) {
    forall k :: 0 <= k < |results| ==> ReadableAt(results, selected, k, env)
  }

  ghost predicate ReadableAt(results: seq<CaseResult>, selected: seq<Case>, k: nat, env: Env)
    requires k < |results|
  {
    forall c :: c in selected && c.id == results[k].caseId ==>
      && results[k].version == c.version && results[k].sha256 == env.digest(c) && ProperObservation(results[k].observation, env)
      && forall j :: 0 <= j < k ==> results[j].caseId != results[k].caseId
  }

  lemma {:induction false} ResumedIds(results: seq<CaseResult>, selected: seq<Case>, env: Env, id: string)
    requires ResumeFrom(results, selected, env).Ok?
    ensures id in ResumeFrom(results, selected, env).value
       <==> (exists c :: c in selected && c.id == id) && exists k :: 0 <= k < |results| && results[k].caseId == id
  {
    if results != [] {
      var n := |results| - 1;
      ResumedIds(results[..n], selected, env, id);
      FoundCase(selected, results[n].caseId);
      assert results == results[..n] + [results[n]];
      if exists k :: 0 <= k < n && results[..n][k].caseId == id {
        var k :| 0 <= k < n && results[..n][k].caseId == id;
        assert results[k].caseId == id;
      }
      if exists k :: 0 <= k < n && results[k].caseId == id {
        var k :| 0 <= k < n && results[k].caseId == id;
        assert results[..n][k].caseId == id;
      }
    }
  }

  lemma {:induction false} ResumesExactly(results: seq<CaseResult>, selected: seq<Case>, env: Env)
    requires DistinctIds(selected)
    ensures ResumeFrom(results, selected, env).Ok? <==> Readable(results, selected, env)
  {
    if results != [] {
      var n := |results| - 1;
      ResumesExactly(results[..n], selected, env);
      ReadablePrefix(results, selected, env);
      if ResumeFrom(results[..n], selected, env).Ok? {
        LastIsReadable(results, selected, env);
      }
    }
  }

  lemma ReadablePrefix(results: seq<CaseResult>, selected: seq<Case>, env: Env)
    requires results != []
    ensures Readable(results, selected, env)
       <==> Readable(results[..|results| - 1], selected, env) && ReadableAt(results, selected, |results| - 1, env)
  {
    var n := |results| - 1;
    forall k | 0 <= k < n ensures ReadableAt(results, selected, k, env) == ReadableAt(results[..n], selected, k, env) {
      assert results[..n][k] == results[k];
      assert forall j :: 0 <= j < k ==> results[..n][j] == results[j];
    }
  }

  lemma LastIsReadable(results: seq<CaseResult>, selected: seq<Case>, env: Env)
    requires results != [] && DistinctIds(selected) && ResumeFrom(results[..|results| - 1], selected, env).Ok?
    ensures ResumeFrom(results, selected, env).Ok? <==> ReadableAt(results, selected, |results| - 1, env)
  {
    var n := |results| - 1;
    var last := results[n];
    FoundCase(selected, last.caseId);
    ObservationExactly(last.observation, env);
    ResumedIds(results[..n], selected, env, last.caseId);
    if exists j :: 0 <= j < n && results[j].caseId == last.caseId {
      var j :| 0 <= j < n && results[j].caseId == last.caseId;
      assert results[..n][j].caseId == last.caseId;
    }
    if exists j :: 0 <= j < n && results[..n][j].caseId == last.caseId {
      var j :| 0 <= j < n && results[..n][j].caseId == last.caseId;
      assert results[j].caseId == last.caseId;
    }
    match FindCase(selected, last.caseId)
    case Some(c) =>
      forall d | d in selected && d.id == last.caseId ensures d == c { SameCase(selected, c, d); }
    case None =>
  }

  // A produced run reports selected cases of the suite; each result is the
  // executor's own answer, or the one of the earlier report.
  lemma ProducedResultsAreAnswers(suite: Suite, fixture: string, ids: set<string>, executor: Executor, limits: Limits,
                                  from: Option<Run>, env: Env, run: Run, i: nat) returns (c: Case)
    requires DistinctIds(suite.cases) && Produces(suite, fixture, ids, executor, limits, from, env, run)
    requires i < |run.results|
    ensures |run.results| == |run.selectedCaseIds|
    ensures c in suite.cases && c.id in ids && run.selectedCaseIds[i] == c.id
    ensures Reports(run.results[i], c, executor, env) || (from.Some? && TakenFrom(from.value, run.results[i], c, env))
  {
    var selected := Select(suite.cases, ids);
    c := selected[i];
    SelectMembers(suite.cases, ids, c);
    SelectDistinct(suite.cases, ids);
    var resumed := Resumed(from, suite, fixture, selected, env).value;
    if c.id in resumed {
      ResumedAreTakenOver(from.value.results, selected, env, c.id);
      var k, d :| 0 <= k < |from.value.results| && d in selected && d.id == c.id
                  && TakenOver(resumed[c.id], from.value.results[k], d, env);
      SameCase(selected, c, d);
      assert TakenFrom(from.value, run.results[i], c, env);
    } else {
      CaseExactly(c, executor, env);
    }
  }

  ghost predicate TakenFrom(report: Run, r: CaseResult, c: Case, env: Env) {
    exists k :: 0 <= k < |report.results| && TakenOver(r, report.results[k], c, env)
  }

  // Selecting keeps the order of the suite.
  lemma {:induction false} SelectionKeepsOrder(cases: seq<Case>, ids: set<string>, i: nat, j: nat) returns (a: nat, b: nat)
    requires i < j < |Select(cases, ids)|
    ensures a < b < |cases| && cases[a] == Select(cases, ids)[i] && cases[b] == Select(cases, ids)[j]
  {
    var n := |cases| - 1;
    var rest := Select(cases[..n], ids);
    if j < |rest| {
      a, b := SelectionKeepsOrder(cases[..n], ids, i, j);
    } else {
      b := n;
      SelectMembers(cases[..n], ids, rest[i]);
      a :| 0 <= a < n && cases[..n][a] == rest[i];
    }
  }

  // ---- When a run is produced ----

  function ReportedIds(from: Option<Run>): set<string> {
    if from.None? then {} else set k | 0 <= k < |from.value.results| :: from.value.results[k].caseId
  }

  // Everything a run needs: proper limits, a selection with its artifacts, a
  // readable report of the same suite to resume from, the budget for what is
  // not reported, and a proper answer to each of those cases.
  ghost predicate CanRun(suite: Suite, fixture: string, ids: set<string>, executor: Executor, limits: Limits,
                         from: Option<Run>, env: Env) {
    && limits.maxConcurrency.Int? && limits.maxConcurrency.i >= 1
    && (limits.maxExpectedCost == Null || (limits.maxExpectedCost.Int? && limits.maxExpectedCost.i >= 0)
        || (limits.maxExpectedCost.Float? && limits.maxExpectedCost.r >= 0.0))
    && (exists c :: c in suite.cases && c.id in ids)
    && (forall c :: c in suite.cases && c.id in ids ==> env.artifactsOk(c))
    && (from.Some? ==>
          && from.value.schemaVersion == env.schemaVersion && from.value.suiteId == suite.suiteId
          && from.value.fixtureSha256 == fixture && Readable(from.value.results, Select(suite.cases, ids), env))
    && (limits.maxExpectedCost != Null ==>
          Cost(Select(suite.cases, ids - ReportedIds(from)))
          <= if limits.maxExpectedCost.Int? then limits.maxExpectedCost.i as real else limits.maxExpectedCost.r)
    && (forall c :: c in suite.cases && c.id in ids && c.id !in ReportedIds(from) ==>
          executor(c).Some? && ProperObservation(executor(c).value, env))
  }

  lemma SelectedExactly(suite: Suite, ids: set<string>)
    ensures Select(suite.cases, ids) != [] <==> exists c :: c in suite.cases && c.id in ids
    ensures forall c :: c in Select(suite.cases, ids) <==> c in suite.cases && c.id in ids
  {
    forall c ensures c in Select(suite.cases, ids) <==> c in suite.cases && c.id in ids {
      SelectMembers(suite.cases, ids, c);
    }
    if Select(suite.cases, ids) != [] {
      assert Select(suite.cases, ids)[0] in Select(suite.cases, ids);
    }
  }

  lemma ResumingExactly(suite: Suite, fixture: string, ids: set<string>, from: Option<Run>, env: Env)
    requires DistinctIds(suite.cases)
    ensures var r := Resumed(from, suite, fixture, Select(suite.cases, ids), env);
            && (r.Ok? <==> from.Some? ==>
                  && from.value.schemaVersion == env.schemaVersion && from.value.suiteId == suite.suiteId
                  && from.value.fixtureSha256 == fixture && Readable(from.value.results, Select(suite.cases, ids), env))
            && (r.Ok? ==> forall c :: c in suite.cases && c.id in ids ==> (c.id in r.value <==> c.id in ReportedIds(from)))
  {
    var selected := Select(suite.cases, ids);
    SelectDistinct(suite.cases, ids);
    SelectedExactly(suite, ids);
    if from.Some? {
      ResumesExactly(from.value.results, selected, env);
      var r := Resumed(from, suite, fixture, selected, env);
      if r.Ok? {
        forall c | c in suite.cases && c.id in ids ensures c.id in r.value <==> c.id in ReportedIds(from) {
          ResumedIds(from.value.results, selected, env, c.id);
        }
      }
    }
  }

  lemma PendingExactly(suite: Suite, fixture: string, ids: set<string>, executor: Executor, from: Option<Run>, env: Env)
    requires DistinctIds(suite.cases) && Resumed(from, suite, fixture, Select(suite.cases, ids), env).Ok?
    ensures var selected := Select(suite.cases, ids);
            var pending := Pending(selected, Resumed(from, suite, fixture, selected, env).value.Keys);
            && pending == Select(suite.cases, ids - ReportedIds(from))
            && (AllSucceed(pending, executor, env) <==>
                  forall c :: c in suite.cases && c.id in ids && c.id !in ReportedIds(from) ==>
                    executor(c).Some? && ProperObservation(executor(c).value, env))
  {
    var selected := Select(suite.cases, ids);
    var pending := Select(suite.cases, ids - ReportedIds(from));
    ResumingExactly(suite, fixture, ids, from, env);
    PendingIsTheRest(suite.cases, ids, ReportedIds(from), Resumed(from, suite, fixture, selected, env).value.Keys);
    SelectedExactly(suite, ids - ReportedIds(from));
    forall c ensures Outcome(c, executor, env).Ok? <==> executor(c).Some? && ProperObservation(executor(c).value, env) {
      CaseExactly(c, executor, env);
    }
    if AllSucceed(pending, executor, env) {
      forall c | c in suite.cases && c.id in ids && c.id !in ReportedIds(from) ensures Outcome(c, executor, env).Ok? {
        var k :| 0 <= k < |pending| && pending[k] == c;
      }
    } else {
      var k :| 0 <= k < |pending| && Outcome(pending[k], executor, env).Err?;
      assert pending[k] in pending;
    }
  }

  // A run is produced if and only if it can be, and then exactly one is.
  lemma RunsExactly(suite: Suite, fixture: string, ids: set<string>, executor: Executor, limits: Limits, from: Option<Run>,
                    env: Env)
    requires DistinctIds(suite.cases)
    ensures (exists run :: Produces(suite, fixture, ids, executor, limits, from, env, run))
       <==> CanRun(suite, fixture, ids, executor, limits, from, env)
  {
    SelectedExactly(suite, ids);
    ResumingExactly(suite, fixture, ids, from, env);
    if Resumed(from, suite, fixture, Select(suite.cases, ids), env).Ok? {
      PendingExactly(suite, fixture, ids, executor, from, env);
      if CanRun(suite, fixture, ids, executor, limits, from, env) {
        RunExists(suite, fixture, ids, executor, limits, from, env);
      }
    }
  }

  lemma RunExists(suite: Suite, fixture: string, ids: set<string>, executor: Executor, limits: Limits, from: Option<Run>,
                  env: Env)
    requires var selected := Select(suite.cases, ids);
             && ValidLimits(limits) && selected != [] && (forall c :: c in selected ==> env.artifactsOk(c))
             && Resumed(from, suite, fixture, selected, env).Ok?
             && var pending := Pending(selected, Resumed(from, suite, fixture, selected, env).value.Keys);
                (limits.maxExpectedCost.Null? || Cost(pending) <= limits.maxExpectedCost.Amount())
                && AllSucceed(pending, executor, env)
    ensures exists run :: Produces(suite, fixture, ids, executor, limits, from, env, run)
  {
    var selected := Select(suite.cases, ids);
    var resumed := Resumed(from, suite, fixture, selected, env).value;
    var pending := Pending(selected, resumed.Keys);
    forall i | 0 <= i < |selected| ensures selected[i].id in resumed || Outcome(selected[i], executor, env).Ok? {
      PendingMembers(selected, resumed.Keys, selected[i]);
      if selected[i].id !in resumed {
        var k :| 0 <= k < |pending| && pending[k] == selected[i];
      }
    }
    var results := seq(|selected|, i requires 0 <= i < |selected|
                                     && (selected[i].id in resumed || Outcome(selected[i], executor, env).Ok?)
                                   => ResultFor(selected[i], resumed, executor, env));
    var run := Run(env.schemaVersion, suite.suiteId, fixture, CaseIds(selected), limits.maxExpectedCost,
                   limits.maxConcurrency, results);
    assert Produces(suite, fixture, ids, executor, limits, from, env, run);
  }

  // ---- Orders of completion ----

  function Below(n: nat): (s: set<nat>)
    ensures forall i :: i in s <==> 0 <= i < n
    ensures |s| == n
  {
    if n == 0 then {} else Below(n - 1) + {n - 1}
  }

  function Members(order: seq<nat>): (s: set<nat>)
    ensures forall i :: i in s <==> i in order
  {
    set i | i in order
  }

  lemma {:induction false} DistinctSize(order: seq<nat>)
    requires Distinct(order)
    ensures |Members(order)| == |order|
  {
    if order != [] {
      var n := |order| - 1;
      DistinctSize(order[..n]);
      assert order == order[..n] + [order[n]];
      assert Members(order) == Members(order[..n]) + {order[n]};
      assert order[n] !in order[..n];
    } else {
      assert Members(order) == {};
    }
  }

  lemma SubsetOfSameSize<T>(a: set<T>, b: set<T>)
    requires a <= b && |a| == |b|
    ensures a == b
  {
    assert b == a + (b - a);
    assert |b| == |a| + |b - a|;
  }

  // The orders in which the cases can complete are all the permutations.
  lemma OrdersArePermutations(order: seq<nat>, n: nat)
    ensures |order| == n && (forall k :: 0 <= k < n ==> order[k] < n) && Distinct(order) ==> CompletionOrder(order, n)
  {
    if |order| == n && (forall k :: 0 <= k < n ==> order[k] < n) && Distinct(order) {
      DistinctSize(order);
      SubsetOfSameSize(Members(order), Below(n));
      forall i | 0 <= i < n ensures Completes(order, i) {
        assert i in Members(order) && i in order;
      }
    }
  }
}
