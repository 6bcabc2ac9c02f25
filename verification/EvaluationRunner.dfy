// The evaluation runner: bounded execution of the selected cases, in whatever
// order they complete, and resuming from an earlier report.
module EvaluationRunner {
  import opened Basics
  import opened JsonTree

  // `content` stands for everything else in a case.
  datatype Case = Case(id: string, version: int, maximumCost: real, content: string)

  datatype Observation = Observation(
    boundary: string, effects: map<string, Json>, groundTruthIds: seq<string>, sources: seq<string>, cost: Json)

  datatype CaseResult = CaseResult(caseId: string, version: int, sha256: string, observation: Observation, reused: bool)

  datatype Run = Run(
    schemaVersion: string, suiteId: string, fixtureSha256: string, selectedCaseIds: seq<string>,
    maxExpectedCost: Json, maxConcurrency: Json, results: seq<CaseResult>)

  datatype RunError =
    | BadLimits | NothingSelected | BadArtifact | OtherSchema | OtherSuite | OtherFixture | OtherCase(id: string)
    | DuplicateResult(id: string) | InvalidObservation(id: string) | OverBudget | ExecutorFailed(id: string)

  // str.strip(), the canonical digest of a case, the names of side effects,
  // and whether the artifacts of a case are in place.
  datatype Env = Env(
    strip: string -> string, digest: Case -> string, fields: set<string>, artifactsOk: Case -> bool,
    schemaVersion: string)

  ghost predicate ValidEnv(env: Env) {
    forall s :: env.strip(env.strip(s)) == env.strip(s)
  }

  // str.strip() as modelled in Basics is such a function.
  lemma StripIsStable(s: string)
    ensures Strip(Strip(s)) == Strip(s)
  {
  }

  // An executor is a function of the case; None when it raises.
  type Executor = Case -> Option<Observation>

  datatype Suite = Suite(suiteId: string, cases: seq<Case>)

  // ---- Observations ----

  function Stripped(texts: seq<string>, env: Env): (r: seq<string>)
    ensures |r| == |texts| && forall i :: 0 <= i < |r| ==> r[i] == env.strip(texts[i])
  {
    if texts == [] then [] else Stripped(texts[..|texts| - 1], env) + [env.strip(texts[|texts| - 1])]
  }

  function DistinctTexts(texts: seq<string>, env: Env): Option<seq<string>> {
    var normalised := Stripped(texts, env);
    if (exists i :: 0 <= i < |normalised| && normalised[i] == "") || !Distinct(normalised) then None else Some(normalised)
  }

  predicate Count(j: Json) {
    j.Int? && j.i >= 0
  }

  predicate Amount(j: Json) {
    (j.Int? && j.i >= 0) || (j.Float? && j.r >= 0.0)
  }

  function ValidatedObservation(o: Observation, env: Env): Option<Observation> {
    if env.strip(o.boundary) == "" || o.effects.Keys != env.fields then None
    else if exists k :: k in o.effects && !Count(o.effects[k]) then None
    else if !Amount(o.cost) then None
    else match (DistinctTexts(o.groundTruthIds, env), DistinctTexts(o.sources, env))
      case (Some(ids), Some(sources)) => Some(Observation(env.strip(o.boundary), o.effects, ids, sources, o.cost))
      case _ => None
  }

  lemma DistinctTextsIsStable(texts: seq<string>, env: Env)
    requires ValidEnv(env) && DistinctTexts(texts, env).Some?
    ensures DistinctTexts(DistinctTexts(texts, env).value, env) == DistinctTexts(texts, env)
  {
    var once := Stripped(texts, env);
    assert Stripped(once, env) == once;
  }

  // Validating a validated observation changes nothing.
  lemma ValidationIsIdempotent(o: Observation, env: Env)
    requires ValidEnv(env) && ValidatedObservation(o, env).Some?
    ensures ValidatedObservation(ValidatedObservation(o, env).value, env) == ValidatedObservation(o, env)
  {
    DistinctTextsIsStable(o.groundTruthIds, env);
    DistinctTextsIsStable(o.sources, env);
  }

  // ---- Selecting and executing ----

  function Select(cases: seq<Case>, ids: set<string>): seq<Case> {
    if cases == [] then []
    else
      var last := cases[|cases| - 1];
      Select(cases[..|cases| - 1], ids) + if last.id in ids then [last] else []
  }

  function Cost(cases: seq<Case>): real {
    if cases == [] then 0.0 else Cost(cases[..|cases| - 1]) + cases[|cases| - 1].maximumCost
  }

  function CaseIds(cases: seq<Case>): (r: seq<string>)
    ensures |r| == |cases| && forall i :: 0 <= i < |r| ==> r[i] == cases[i].id
  {
    if cases == [] then [] else CaseIds(cases[..|cases| - 1]) + [cases[|cases| - 1].id]
  }

  // What the executor makes of a case: a valid observation, or an error.
  function Outcome(c: Case, executor: Executor, env: Env): Result<Observation, RunError> {
    match executor(c)
    case None => Err(ExecutorFailed(c.id))
    case Some(o) =>
      match ValidatedObservation(o, env)
      case None => Err(InvalidObservation(c.id))
      case Some(v) => Ok(v)
  }

  function FreshResult(c: Case, executor: Executor, env: Env): CaseResult
    requires Outcome(c, executor, env).Ok?
  {
    CaseResult(c.id, c.version, env.digest(c), Outcome(c, executor, env).value, false)
  }

  ghost predicate AllSucceed(cases: seq<Case>, executor: Executor, env: Env) {
    forall i :: 0 <= i < |cases| ==> Outcome(cases[i], executor, env).Ok?
  }

  // Each future completes once, in any order.
  ghost predicate CompletionOrder(order: seq<nat>, n: nat) {
    && |order| == n && (forall k :: 0 <= k < n ==> order[k] < n)
    && (forall i :: 0 <= i < n ==> Completes(order, i))
  }

  ghost predicate Completes(order: seq<nat>, i: nat) {
    exists k :: 0 <= k < |order| && order[k] == i
  }

  method ExecutePending(cases: seq<Case>, executor: Executor, order: seq<nat>, env: Env)
    returns (r: Result<seq<CaseResult>, RunError>)
    requires CompletionOrder(order, |cases|)
    ensures r.Ok? <==> AllSucceed(cases, executor, env)
    ensures r.Ok? ==> |r.value| == |cases|
                      && forall k :: 0 <= k < |cases| ==> r.value[k] == FreshResult(cases[order[k]], executor, env)
  {
    var results: seq<CaseResult> := [];
    var k := 0;
    while k < |order|
      invariant 0 <= k <= |order| && |results| == k
      invariant forall j :: 0 <= j < k ==>
        Outcome(cases[order[j]], executor, env).Ok? && results[j] == FreshResult(cases[order[j]], executor, env)
    {
      var outcome := Outcome(cases[order[k]], executor, env);
      if outcome.Err? { return Err(outcome.error); }
      results := results + [FreshResult(cases[order[k]], executor, env)];
      k := k + 1;
    }
    forall i | 0 <= i < |cases| ensures Outcome(cases[i], executor, env).Ok? {
      assert Completes(order, i);
    }
    return Ok(results);
  }

  // ---- Resuming ----

  function FindCase(cases: seq<Case>, id: string): Option<Case> {
    if cases == [] then None
    else if cases[|cases| - 1].id == id then Some(cases[|cases| - 1])
    else FindCase(cases[..|cases| - 1], id)
  }

  function Reused(r: CaseResult, o: Observation): CaseResult {
    r.(observation := o, reused := true)
  }

  function ResumeFrom(results: seq<CaseResult>, selected: seq<Case>, env: Env): Result<map<string, CaseResult>, RunError> {
    if results == [] then Ok(map[])
    else
      match ResumeFrom(results[..|results| - 1], selected, env)
      case Err(e) => Err(e)
      case Ok(resumed) => ResumeOne(resumed, results[|results| - 1], FindCase(selected, results[|results| - 1].caseId), env)
  }

  function ResumeOne(resumed: map<string, CaseResult>, r: CaseResult, found: Option<Case>, env: Env)
    : Result<map<string, CaseResult>, RunError>
  {
    match found
    case None => Ok(resumed)
    case Some(c) =>
      if r.version != c.version || r.sha256 != env.digest(c) then Err(OtherCase(c.id))
      else if r.caseId in resumed then Err(DuplicateResult(c.id))
      else match ValidatedObservation(r.observation, env)
        case None => Err(InvalidObservation(c.id))
        case Some(o) => Ok(resumed[r.caseId := Reused(r, o)])
  }

  function Resumed(from: Option<Run>, suite: Suite, fixture: string, selected: seq<Case>, env: Env)
    : Result<map<string, CaseResult>, RunError>
  {
    match from
    case None => Ok(map[])
    case Some(run) =>
      if run.schemaVersion != env.schemaVersion then Err(OtherSchema)
      else if run.suiteId != suite.suiteId then Err(OtherSuite)
      else if run.fixtureSha256 != fixture then Err(OtherFixture)
      else ResumeFrom(run.results, selected, env)
  }

  method ResumeResults(from: Option<Run>, suite: Suite, fixture: string, selected: seq<Case>, env: Env)
    returns (r: Result<map<string, CaseResult>, RunError>)
    ensures r == Resumed(from, suite, fixture, selected, env)
  {
    if from.None? { return Ok(map[]); }
    var run := from.value;
    if run.schemaVersion != env.schemaVersion { return Err(OtherSchema); }
    if run.suiteId != suite.suiteId { return Err(OtherSuite); }
    if run.fixtureSha256 != fixture { return Err(OtherFixture); }
    var resumed: map<string, CaseResult> := map[];
    var i := 0;
    while i < |run.results|
      invariant 0 <= i <= |run.results|
      invariant ResumeFrom(run.results[..i], selected, env) == Ok(resumed)
    {
      assert run.results[..i + 1][..i] == run.results[..i];
      var next := ResumeOne(resumed, run.results[i], FindCase(selected, run.results[i].caseId), env);
      if next.Err? {
        ResumeFailureStays(run.results, i + 1, selected, env);
        return next;
      }
      resumed := next.value;
      i := i + 1;
    }
    assert run.results[..i] == run.results;
    return Ok(resumed);
  }

  lemma {:induction false} ResumeFailureStays(results: seq<CaseResult>, n: nat, selected: seq<Case>, env: Env)
    requires n <= |results| && ResumeFrom(results[..n], selected, env).Err?
    ensures ResumeFrom(results, selected, env) == ResumeFrom(results[..n], selected, env)
    decreases |results|
  {
    if n < |results| {
      var m := |results| - 1;
      assert results[..m][..n] == results[..n];
      ResumeFailureStays(results[..m], n, selected, env);
    } else {
      assert results[..n] == results;
    }
  }

  // ---- One run ----

  datatype Limits = Limits(maxExpectedCost: Json, maxConcurrency: Json)

  predicate ValidLimits(l: Limits) {
    l.maxConcurrency.Int? && l.maxConcurrency.i >= 1 && (l.maxExpectedCost.Null? || Amount(l.maxExpectedCost))
  }

  function Pending(selected: seq<Case>, resumed: set<string>): seq<Case> {
    if selected == [] then []
    else
      var last := selected[|selected| - 1];
      Pending(selected[..|selected| - 1], resumed) + if last.id in resumed then [] else [last]
  }

  function ResultFor(c: Case, resumed: map<string, CaseResult>, executor: Executor, env: Env): CaseResult
    requires c.id in resumed || Outcome(c, executor, env).Ok?
  {
    if c.id in resumed then resumed[c.id] else FreshResult(c, executor, env)
  }

  // The meaning of a run, which does not mention an order of completion.
  ghost predicate Produces(suite: Suite, fixture: string, ids: set<string>, executor: Executor, limits: Limits,
                           from: Option<Run>, env: Env, run: Run)
  {
    var selected := Select(suite.cases, ids);
    && ValidLimits(limits) && selected != [] && (forall c :: c in selected ==> env.artifactsOk(c))
    && Resumed(from, suite, fixture, selected, env).Ok?
    && var resumed := Resumed(from, suite, fixture, selected, env).value;
       var pending := Pending(selected, resumed.Keys);
       && (limits.maxExpectedCost.Null? || Cost(pending) <= limits.maxExpectedCost.Amount())
       && AllSucceed(pending, executor, env)
       && run.schemaVersion == env.schemaVersion && run.suiteId == suite.suiteId && run.fixtureSha256 == fixture
       && run.selectedCaseIds == CaseIds(selected)
       && run.maxExpectedCost == limits.maxExpectedCost && run.maxConcurrency == limits.maxConcurrency
       && |run.results| == |selected|
       && forall i :: 0 <= i < |selected| ==>
            (selected[i].id in resumed || Outcome(selected[i], executor, env).Ok?)
            && run.results[i] == ResultFor(selected[i], resumed, executor, env)
  }

  ghost predicate DistinctIds(cases: seq<Case>) {
    forall i, j :: 0 <= i < j < |cases| ==> cases[i].id != cases[j].id
  }

  lemma {:induction false} SelectMembers(cases: seq<Case>, ids: set<string>, c: Case)
    ensures c in Select(cases, ids) <==> c in cases && c.id in ids
  {
    if cases != [] {
      SelectMembers(cases[..|cases| - 1], ids, c);
      assert cases == cases[..|cases| - 1] + [cases[|cases| - 1]];
    }
  }

  lemma {:induction false} SelectDistinct(cases: seq<Case>, ids: set<string>)
    requires DistinctIds(cases)
    ensures DistinctIds(Select(cases, ids))
  {
    if cases != [] {
      var n := |cases| - 1;
      SelectDistinct(cases[..n], ids);
      var rest := Select(cases[..n], ids);
      forall i | 0 <= i < |rest| ensures rest[i].id != cases[n].id {
        SelectMembers(cases[..n], ids, rest[i]);
        assert rest[i] in cases[..n];
      }
    }
  }

  lemma {:induction false} PendingMembers(selected: seq<Case>, resumed: set<string>, c: Case)
    ensures c in Pending(selected, resumed) <==> c in selected && c.id !in resumed
  {
    if selected != [] {
      PendingMembers(selected[..|selected| - 1], resumed, c);
      assert selected == selected[..|selected| - 1] + [selected[|selected| - 1]];
    }
  }

  lemma SameCase(selected: seq<Case>, c: Case, d: Case)
    requires DistinctIds(selected) && c in selected && d in selected && c.id == d.id
    ensures c == d
  {
  }

  // {result.case_id: result for result in completed}
  method IndexResults(completed: seq<CaseResult>) returns (byId: map<string, CaseResult>)
    ensures forall k :: 0 <= k < |completed| ==> completed[k].caseId in byId
    ensures forall id :: id in byId ==> byId[id] in completed && byId[id].caseId == id
  {
    byId := map[];
    var k := 0;
    while k < |completed|
      invariant 0 <= k <= |completed|
      invariant forall j :: 0 <= j < k ==> completed[j].caseId in byId
      invariant forall id :: id in byId ==> byId[id] in completed && byId[id].caseId == id
    {
      byId := byId[completed[k].caseId := completed[k]];
      k := k + 1;
    }
  }

  // The fresh results of cases that all succeed, in the order of the cases.
  ghost function FreshResults(cases: seq<Case>, executor: Executor, env: Env): (r: seq<CaseResult>)
    requires AllSucceed(cases, executor, env)
    ensures |r| == |cases|
    ensures forall i :: 0 <= i < |cases| ==> r[i] == FreshResult(cases[i], executor, env) && r[i].caseId == cases[i].id
  {
    seq(|cases|, i requires 0 <= i < |cases| => FreshResult(cases[i], executor, env))
  }

  // Whatever order the results completed in, the index finds each of them.
  lemma IndexedResult(results: seq<CaseResult>, order: seq<nat>, completed: seq<CaseResult>, byId: map<string, CaseResult>,
                      i: nat)
    requires forall j, k :: 0 <= j < k < |results| ==> results[j].caseId != results[k].caseId
    requires CompletionOrder(order, |results|) && |completed| == |results| && i < |results|
    requires forall k :: 0 <= k < |results| ==> completed[k] == results[order[k]]
    requires forall k :: 0 <= k < |completed| ==> completed[k].caseId in byId
    requires forall id :: id in byId ==> byId[id] in completed && byId[id].caseId == id
    ensures results[i].caseId in byId && byId[results[i].caseId] == results[i]
  {
    assert Completes(order, i);
    var k :| 0 <= k < |order| && order[k] == i;
    assert completed[k] == results[i];
    var j :| 0 <= j < |completed| && completed[j] == byId[results[i].caseId];
    assert results[order[j]].caseId == results[i].caseId;
  }

  lemma IndexedOutcome(pending: seq<Case>, executor: Executor, order: seq<nat>, env: Env, completed: seq<CaseResult>,
                       byId: map<string, CaseResult>, i: nat)
    requires DistinctIds(pending) && CompletionOrder(order, |pending|) && |completed| == |pending| && i < |pending|
    requires AllSucceed(pending, executor, env)
    requires forall k :: 0 <= k < |pending| ==> completed[k] == FreshResult(pending[order[k]], executor, env)
    requires forall k :: 0 <= k < |completed| ==> completed[k].caseId in byId
    requires forall id :: id in byId ==> byId[id] in completed && byId[id].caseId == id
    ensures pending[i].id in byId && byId[pending[i].id] == FreshResult(pending[i], executor, env)
  {
    var results := FreshResults(pending, executor, env);
    assert forall k :: 0 <= k < |pending| ==> completed[k] == results[order[k]];
    IndexedResult(results, order, completed, byId, i);
  }

  // A run is determined by its inputs: no order of completion enters.
  lemma RunIsUnique(suite: Suite, fixture: string, ids: set<string>, executor: Executor, limits: Limits,
                    from: Option<Run>, env: Env, a: Run, b: Run)
    requires Produces(suite, fixture, ids, executor, limits, from, env, a)
    requires Produces(suite, fixture, ids, executor, limits, from, env, b)
    ensures a == b
  {
    assert a.results == b.results;
  }

  // Puts the results together in the order of the selection.
  method Assemble(selected: seq<Case>, byId: map<string, CaseResult>) returns (results: seq<CaseResult>)
    requires forall i :: 0 <= i < |selected| ==> selected[i].id in byId
    ensures |results| == |selected| && forall i :: 0 <= i < |selected| ==> results[i] == byId[selected[i].id]
  {
    results := [];
    var i := 0;
    while i < |selected|
      invariant 0 <= i <= |selected| && |results| == i
      invariant forall k :: 0 <= k < i ==> results[k] == byId[selected[k].id]
    {
      results := results + [byId[selected[i].id]];
      i := i + 1;
    }
  }

  // Executes what is pending, within the budget, and merges what was resumed.
  method Complete(selected: seq<Case>, resumed: map<string, CaseResult>, executor: Executor, limits: Limits,
                  order: nat -> seq<nat>, env: Env) returns (r: Result<seq<CaseResult>, RunError>)
    requires DistinctIds(selected) && ValidLimits(limits) && forall n :: CompletionOrder(order(n), n)
    ensures r.Ok? <==>
              var pending := Pending(selected, resumed.Keys);
              && (limits.maxExpectedCost.Null? || Cost(pending) <= limits.maxExpectedCost.Amount())
              && AllSucceed(pending, executor, env)
    ensures r.Ok? ==>
              |r.value| == |selected| && forall i :: 0 <= i < |selected| ==>
                (selected[i].id in resumed || Outcome(selected[i], executor, env).Ok?)
                && r.value[i] == ResultFor(selected[i], resumed, executor, env)
  {
    var pending := Pending(selected, resumed.Keys);
    if !limits.maxExpectedCost.Null? && Cost(pending) > limits.maxExpectedCost.Amount() { return Err(OverBudget); }
    var completed := ExecutePending(pending, executor, order(|pending|), env);
    if completed.Err? { return Err(completed.error); }
    var byId := IndexResults(completed.value);
    PendingDistinct(selected, resumed.Keys);
    forall i | 0 <= i < |selected|
      ensures selected[i].id in byId + resumed
      ensures selected[i].id in resumed || Outcome(selected[i], executor, env).Ok?
      ensures (byId + resumed)[selected[i].id] == ResultFor(selected[i], resumed, executor, env)
    {
      if selected[i].id !in resumed {
        PendingMembers(selected, resumed.Keys, selected[i]);
        var k :| 0 <= k < |pending| && pending[k] == selected[i];
        IndexedOutcome(pending, executor, order(|pending|), env, completed.value, byId, k);
      }
    }
    var results := Assemble(selected, byId + resumed);
    return Ok(results);
  }

  lemma {:induction false} PendingDistinct(selected: seq<Case>, resumed: set<string>)
    requires DistinctIds(selected)
    ensures DistinctIds(Pending(selected, resumed))
  {
    if selected != [] {
      var n := |selected| - 1;
      PendingDistinct(selected[..n], resumed);
      var rest := Pending(selected[..n], resumed);
      forall i | 0 <= i < |rest| ensures rest[i].id != selected[n].id {
        PendingMembers(selected[..n], resumed, rest[i]);
        assert rest[i] in selected[..n];
      }
    }
  }

  method RunEvaluationCases(suite: Suite, fixture: string, ids: set<string>, executor: Executor, limits: Limits,
                            from: Option<Run>, order: nat -> seq<nat>, env: Env) returns (r: Result<Run, RunError>)
    requires DistinctIds(suite.cases) && forall n :: CompletionOrder(order(n), n)
    ensures r.Ok? ==> Produces(suite, fixture, ids, executor, limits, from, env, r.value)
    ensures r.Err? ==> forall run :: !Produces(suite, fixture, ids, executor, limits, from, env, run)
  {
    if !ValidLimits(limits) { return Err(BadLimits); }
    var selected := Select(suite.cases, ids);
    if selected == [] { return Err(NothingSelected); }
    if exists c :: c in selected && !env.artifactsOk(c) { return Err(BadArtifact); }
    var resumed := ResumeResults(from, suite, fixture, selected, env);
    if resumed.Err? { return Err(resumed.error); }
    SelectDistinct(suite.cases, ids);
    var results := Complete(selected, resumed.value, executor, limits, order, env);
    if results.Err? { return Err(results.error); }
    return Ok(Run(env.schemaVersion, suite.suiteId, fixture, CaseIds(selected),
                  limits.maxExpectedCost, limits.maxConcurrency, results.value));
  }

  // ---- Resuming refines a fresh run ----

  // The run reports what a fresh execution of the selection would.
  ghost predicate Faithful(run: Run, suite: Suite, fixture: string, ids: set<string>, executor: Executor, env: Env) {
    var selected := Select(suite.cases, ids);
    && run.schemaVersion == env.schemaVersion && run.suiteId == suite.suiteId && run.fixtureSha256 == fixture
    && run.selectedCaseIds == CaseIds(selected) && AllSucceed(selected, executor, env)
    && |run.results| == |selected|
    && forall i :: 0 <= i < |selected| ==> run.results[i].(reused := false) == FreshResult(selected[i], executor, env)
  }

  lemma {:induction false} FindCaseFinds(cases: seq<Case>, c: Case)
    requires DistinctIds(cases) && c in cases
    ensures FindCase(cases, c.id) == Some(c)
  {
    var n := |cases| - 1;
    if cases[n] != c {
      assert cases == cases[..n] + [cases[n]];
      FindCaseFinds(cases[..n], c);
    }
  }

  lemma {:induction false} FindCaseMisses(cases: seq<Case>, id: string)
    requires forall c :: c in cases ==> c.id != id
    ensures FindCase(cases, id) == None
  {
    if cases != [] {
      assert cases[|cases| - 1] in cases;
      FindCaseMisses(cases[..|cases| - 1], id);
    }
  }

  ghost predicate Mentions(cases: seq<Case>, id: string) {
    exists k :: 0 <= k < |cases| && cases[k].id == id
  }

  // What is resumed from the results of a faithful run over `earlier`.
  ghost predicate ResumedSoFar(m: map<string, CaseResult>, earlier: seq<Case>, ids: set<string>, executor: Executor, env: Env)
    requires AllSucceed(earlier, executor, env)
  {
    && (forall id :: id in m ==> id in ids && Mentions(earlier, id))
    && (forall k :: 0 <= k < |earlier| && earlier[k].id in ids ==>
          earlier[k].id in m && m[earlier[k].id] == FreshResult(earlier[k], executor, env).(reused := true))
  }

  lemma OutcomeIsValidated(c: Case, executor: Executor, env: Env)
    requires ValidEnv(env) && Outcome(c, executor, env).Ok?
    ensures ValidatedObservation(Outcome(c, executor, env).value, env) == Some(Outcome(c, executor, env).value)
  {
    ValidationIsIdempotent(executor(c).value, env);
  }

  // A faithful result is resumed as it is, if its case is selected.
  lemma ResumeOneFaithful(m: map<string, CaseResult>, c: Case, r: CaseResult, cases: seq<Case>, ids: set<string>,
                          executor: Executor, env: Env)
    requires ValidEnv(env) && DistinctIds(cases) && c in cases && Outcome(c, executor, env).Ok? && c.id !in m
    requires r.(reused := false) == FreshResult(c, executor, env)
    ensures ResumeOne(m, r, FindCase(Select(cases, ids), r.caseId), env)
            == Ok(if c.id in ids then m[c.id := FreshResult(c, executor, env).(reused := true)] else m)
  {
    var selected := Select(cases, ids);
    SelectDistinct(cases, ids);
    SelectMembers(cases, ids, c);
    OutcomeIsValidated(c, executor, env);
    if c.id in ids {
      FindCaseFinds(selected, c);
    } else {
      forall d | d in selected ensures d.id != c.id { SelectMembers(cases, ids, d); }
      FindCaseMisses(selected, c.id);
    }
  }

  lemma ResumedSoFarNext(m: map<string, CaseResult>, earlier: seq<Case>, c: Case, ids: set<string>, executor: Executor, env: Env)
    requires AllSucceed(earlier, executor, env) && Outcome(c, executor, env).Ok?
    requires ResumedSoFar(m, earlier, ids, executor, env) && DistinctIds(earlier + [c])
    ensures AllSucceed(earlier + [c], executor, env) && c.id !in m
    ensures ResumedSoFar(if c.id in ids then m[c.id := FreshResult(c, executor, env).(reused := true)] else m,
                         earlier + [c], ids, executor, env)
  {
    var next := earlier + [c];
    forall k | 0 <= k < |earlier| ensures earlier[k].id != c.id { assert next[k].id != next[|earlier|].id; }
    assert !Mentions(earlier, c.id);
    forall id | id in m ensures Mentions(next, id) {
      var k :| 0 <= k < |earlier| && earlier[k].id == id;
      assert next[k].id == id;
    }
    assert next[|earlier|].id == c.id;
  }

  lemma ResumedStep(m: map<string, CaseResult>, earlier: seq<Case>, c: Case, r: CaseResult, cases: seq<Case>, ids: set<string>,
                    executor: Executor, env: Env)
    requires ValidEnv(env) && DistinctIds(cases) && c in cases && DistinctIds(earlier + [c])
    requires AllSucceed(earlier, executor, env) && Outcome(c, executor, env).Ok?
    requires r.(reused := false) == FreshResult(c, executor, env) && ResumedSoFar(m, earlier, ids, executor, env)
    ensures var next := ResumeOne(m, r, FindCase(Select(cases, ids), r.caseId), env);
            && AllSucceed(earlier + [c], executor, env)
            && next.Ok? && ResumedSoFar(next.value, earlier + [c], ids, executor, env)
  {
    ResumedSoFarNext(m, earlier, c, ids, executor, env);
    ResumeOneFaithful(m, c, r, cases, ids, executor, env);
  }

  // The results are those of a fresh execution of these cases of the suite.
  ghost predicate FaithfulResults(results: seq<CaseResult>, earlier: seq<Case>, cases: seq<Case>, executor: Executor, env: Env) {
    && |results| == |earlier| && DistinctIds(earlier)
    && forall i :: 0 <= i < |earlier| ==>
         && earlier[i] in cases && Outcome(earlier[i], executor, env).Ok?
         && results[i].(reused := false) == FreshResult(earlier[i], executor, env)
  }

  lemma FaithfulPrefix(results: seq<CaseResult>, earlier: seq<Case>, cases: seq<Case>, executor: Executor, env: Env)
    requires earlier != [] && FaithfulResults(results, earlier, cases, executor, env)
    ensures FaithfulResults(results[..|results| - 1], earlier[..|earlier| - 1], cases, executor, env)
  {
    var n := |earlier| - 1;
    var (a, b) := (results[..n], earlier[..n]);
    forall i | 0 <= i < n ensures a[i] == results[i] && b[i] == earlier[i] {}
  }

  lemma {:induction false} FaithfulIsResumed(results: seq<CaseResult>, earlier: seq<Case>, cases: seq<Case>, ids: set<string>,
                                             executor: Executor, env: Env)
    requires ValidEnv(env) && DistinctIds(cases) && FaithfulResults(results, earlier, cases, executor, env)
    ensures var m := ResumeFrom(results, Select(cases, ids), env);
            AllSucceed(earlier, executor, env) && m.Ok? && ResumedSoFar(m.value, earlier, ids, executor, env)
  {
    if earlier != [] {
      var n := |earlier| - 1;
      FaithfulPrefix(results, earlier, cases, executor, env);
      FaithfulIsResumed(results[..n], earlier[..n], cases, ids, executor, env);
      var m := ResumeFrom(results[..n], Select(cases, ids), env).value;
      assert earlier == earlier[..n] + [earlier[n]];
      ResumedStep(m, earlier[..n], earlier[n], results[n], cases, ids, executor, env);
    }
  }

  lemma FaithfulRun(run: Run, suite: Suite, fixture: string, before: set<string>, executor: Executor, env: Env)
    requires DistinctIds(suite.cases) && Faithful(run, suite, fixture, before, executor, env)
    ensures FaithfulResults(run.results, Select(suite.cases, before), suite.cases, executor, env)
  {
    var earlier := Select(suite.cases, before);
    SelectDistinct(suite.cases, before);
    forall i | 0 <= i < |earlier| ensures earlier[i] in suite.cases {
      SelectMembers(suite.cases, before, earlier[i]);
    }
  }

  // Only what the earlier run did not select is executed now.
  lemma {:induction false} PendingIsTheRest(cases: seq<Case>, ids: set<string>, before: set<string>, resumed: set<string>)
    requires forall c :: c in cases && c.id in ids ==> (c.id in resumed <==> c.id in before)
    ensures Pending(Select(cases, ids), resumed) == Select(cases, ids - before)
  {
    if cases != [] {
      var n := |cases| - 1;
      assert cases[n] in cases;
      PendingIsTheRest(cases[..n], ids, before, resumed);
      var rest := Select(cases[..n], ids);
      assert (rest + [cases[n]])[..|rest|] == rest && rest + [] == rest;
      assert Pending(rest, resumed) + [] == Pending(rest, resumed);
    }
  }

  // Resuming from a faithful run succeeds in reading it, executes exactly the
  // cases that are new, and yields a faithful run.
  lemma ResumingIsFaithful(run: Run, from: Run, suite: Suite, fixture: string, before: set<string>, ids: set<string>,
                           executor: Executor, limits: Limits, env: Env)
    requires ValidEnv(env) && DistinctIds(suite.cases) && Faithful(from, suite, fixture, before, executor, env)
    requires Produces(suite, fixture, ids, executor, limits, Some(from), env, run)
    ensures Faithful(run, suite, fixture, ids, executor, env)
    ensures var selected := Select(suite.cases, ids);
            Pending(selected, Resumed(Some(from), suite, fixture, selected, env).value.Keys) == Select(suite.cases, ids - before)
  {
    var selected, earlier := Select(suite.cases, ids), Select(suite.cases, before);
    FaithfulRun(from, suite, fixture, before, executor, env);
    FaithfulIsResumed(from.results, earlier, suite.cases, ids, executor, env);
    var m := ResumeFrom(from.results, selected, env).value;
    forall c | c in suite.cases && c.id in ids
      ensures c.id in m <==> c.id in before
      ensures c.id in m ==> Outcome(c, executor, env).Ok? && m[c.id] == FreshResult(c, executor, env).(reused := true)
    {
      ResumedCase(m, suite.cases, before, ids, executor, env, c);
    }
    PendingIsTheRest(suite.cases, ids, before, m.Keys);
    forall i | 0 <= i < |selected|
      ensures Outcome(selected[i], executor, env).Ok?
      ensures run.results[i].(reused := false) == FreshResult(selected[i], executor, env)
    {
      SelectMembers(suite.cases, ids, selected[i]);
    }
  }

  lemma ResumedCase(m: map<string, CaseResult>, cases: seq<Case>, before: set<string>, ids: set<string>,
                    executor: Executor, env: Env, c: Case)
    requires DistinctIds(cases) && AllSucceed(Select(cases, before), executor, env)
    requires ResumedSoFar(m, Select(cases, before), ids, executor, env) && c in cases && c.id in ids
    ensures c.id in m <==> c.id in before
    ensures c.id in m ==> Outcome(c, executor, env).Ok? && m[c.id] == FreshResult(c, executor, env).(reused := true)
  {
    var earlier := Select(cases, before);
    SelectMembers(cases, before, c);
    if c.id in before {
      var k :| 0 <= k < |earlier| && earlier[k] == c;
    } else if c.id in m {
      var k :| 0 <= k < |earlier| && earlier[k].id == c.id;
      SelectMembers(cases, before, earlier[k]);
    }
  }

  lemma FreshIsFaithful(run: Run, suite: Suite, fixture: string, ids: set<string>, executor: Executor, limits: Limits, env: Env)
    requires Produces(suite, fixture, ids, executor, limits, None, env, run)
    ensures Faithful(run, suite, fixture, ids, executor, env)
    ensures Pending(Select(suite.cases, ids), {}) == Select(suite.cases, ids)
  {
    PendingIsTheRest(suite.cases, ids, {}, {});
    assert ids - {} == ids;
  }

  // A chain of runs, each resuming from the one before over a selection that
  // has only grown.
  datatype Link = Link(ids: set<string>, limits: Limits, run: Run)

  ghost predicate Chain(suite: Suite, fixture: string, executor: Executor, env: Env, links: seq<Link>) {
    && links != []
    && Produces(suite, fixture, links[0].ids, executor, links[0].limits, None, env, links[0].run)
    && forall i :: 0 < i < |links| ==> Continues(suite, fixture, executor, env, links[i - 1], links[i])
  }

  ghost predicate Continues(suite: Suite, fixture: string, executor: Executor, env: Env, a: Link, b: Link) {
    a.ids <= b.ids && Produces(suite, fixture, b.ids, executor, b.limits, Some(a.run), env, b.run)
  }

  // The cases that the i-th run of a chain hands to the executor.
  ghost function Executed(suite: Suite, fixture: string, env: Env, links: seq<Link>, i: nat): seq<Case>
    requires i < |links|
  {
    var selected := Select(suite.cases, links[i].ids);
    match Resumed(if i == 0 then None else Some(links[i - 1].run), suite, fixture, selected, env)
    case Ok(resumed) => Pending(selected, resumed.Keys)
    case Err(_) => []
  }

  lemma {:induction false} ChainIsFaithful(suite: Suite, fixture: string, executor: Executor, env: Env, links: seq<Link>, i: nat)
    requires ValidEnv(env) && DistinctIds(suite.cases) && Chain(suite, fixture, executor, env, links) && i < |links|
    ensures Faithful(links[i].run, suite, fixture, links[i].ids, executor, env)
    ensures Executed(suite, fixture, env, links, i)
            == Select(suite.cases, if i == 0 then links[0].ids else links[i].ids - links[i - 1].ids)
  {
    if i == 0 {
      FreshIsFaithful(links[0].run, suite, fixture, links[0].ids, executor, links[0].limits, env);
      var none: map<string, CaseResult> := map[];
      assert none.Keys == {};
    } else {
      ChainIsFaithful(suite, fixture, executor, env, links, i - 1);
      assert Continues(suite, fixture, executor, env, links[i - 1], links[i]);
      ResumingIsFaithful(links[i].run, links[i - 1].run, suite, fixture, links[i - 1].ids, links[i].ids, executor,
                         links[i].limits, env);
    }
  }

  // The last run of a chain reports exactly what one fresh run over the final
  // selection reports, apart from which results were reused.
  lemma ChainRefinesFreshRun(suite: Suite, fixture: string, executor: Executor, env: Env, links: seq<Link>,
                             limits: Limits, anew: Run)
    requires ValidEnv(env) && DistinctIds(suite.cases) && Chain(suite, fixture, executor, env, links)
    requires Produces(suite, fixture, links[|links| - 1].ids, executor, limits, None, env, anew)
    ensures var last := links[|links| - 1].run;
            && last.selectedCaseIds == anew.selectedCaseIds && |last.results| == |anew.results|
            && forall i :: 0 <= i < |last.results| ==> last.results[i].(reused := false) == anew.results[i].(reused := false)
  {
    ChainIsFaithful(suite, fixture, executor, env, links, |links| - 1);
    FreshIsFaithful(anew, suite, fixture, links[|links| - 1].ids, executor, limits, env);
  }

  // In how many runs of the chain a case is executed.
  ghost function Executions(suite: Suite, fixture: string, env: Env, links: seq<Link>, n: nat, c: Case): nat
    requires n <= |links|
  {
    if n == 0 then 0
    else Executions(suite, fixture, env, links, n - 1, c)
         + if c in Executed(suite, fixture, env, links, n - 1) then 1 else 0
  }

  // Every selected case is executed exactly once over the whole chain.
  lemma {:induction false} EachCaseRunsOnce(suite: Suite, fixture: string, executor: Executor, env: Env, links: seq<Link>,
                                            n: nat, c: Case)
    requires ValidEnv(env) && DistinctIds(suite.cases) && Chain(suite, fixture, executor, env, links)
    requires 0 < n <= |links| && c in suite.cases
    ensures Executions(suite, fixture, env, links, n, c) == if c.id in links[n - 1].ids then 1 else 0
  {
    ChainIsFaithful(suite, fixture, executor, env, links, n - 1);
    if n == 1 {
      SelectMembers(suite.cases, links[0].ids, c);
      assert Executions(suite, fixture, env, links, 0, c) == 0;
    } else {
      EachCaseRunsOnce(suite, fixture, executor, env, links, n - 1, c);
      assert Continues(suite, fixture, executor, env, links[n - 2], links[n - 1]);
      SelectMembers(suite.cases, links[n - 1].ids - links[n - 2].ids, c);
    }
  }

  ghost function ChainCost(suite: Suite, fixture: string, env: Env, links: seq<Link>, n: nat): real
    requires n <= |links|
  {
    if n == 0 then 0.0
    else ChainCost(suite, fixture, env, links, n - 1) + Cost(Executed(suite, fixture, env, links, n - 1))
  }

  lemma {:induction false} CostSplits(cases: seq<Case>, before: set<string>, ids: set<string>)
    requires before <= ids
    ensures Cost(Select(cases, ids)) == Cost(Select(cases, before)) + Cost(Select(cases, ids - before))
  {
    if cases != [] {
      var n := |cases| - 1;
      CostSplits(cases[..n], before, ids);
      CostAppend(Select(cases[..n], ids), cases[n]);
      CostAppend(Select(cases[..n], before), cases[n]);
      CostAppend(Select(cases[..n], ids - before), cases[n]);
    }
  }

  lemma CostAppend(cases: seq<Case>, c: Case)
    ensures Cost(cases + [c]) == Cost(cases) + c.maximumCost
    ensures cases + [] == cases
  {
    assert (cases + [c])[..|cases|] == cases;
  }

  // The declared costs of what the chain executed add up to the declared cost
  // of its final selection.
  lemma {:induction false} ChainCostsAddUp(suite: Suite, fixture: string, executor: Executor, env: Env, links: seq<Link>, n: nat)
    requires ValidEnv(env) && DistinctIds(suite.cases) && Chain(suite, fixture, executor, env, links) && 0 < n <= |links|
    ensures ChainCost(suite, fixture, env, links, n) == Cost(Select(suite.cases, links[n - 1].ids))
  {
    ChainIsFaithful(suite, fixture, executor, env, links, n - 1);
    if n == 1 {
      assert ChainCost(suite, fixture, env, links, 0) == 0.0;
    } else {
      ChainCostsAddUp(suite, fixture, executor, env, links, n - 1);
      assert Continues(suite, fixture, executor, env, links[n - 2], links[n - 1]);
      CostSplits(suite.cases, links[n - 2].ids, links[n - 1].ids);
    }
  }
}
