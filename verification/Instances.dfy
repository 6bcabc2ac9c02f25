// The parameters that are known: the field names of the report and of the
// manifest, and str.strip() as it is.
module Instances {
  import opened Basics
  import opened JsonTree
  import E = EvaluationRunner
  import R = RunReport
  import M = Manifest

  ghost function ReportNames(): R.Naming {
    R.Naming(f => R.NameOf(f), s => R.FieldOf(s))
  }

  const RUN_SCHEMA := "evaluation-run/v1"

  function RunnerEnv(digest: E.Case -> string, fields: set<string>, artifactsOk: E.Case -> bool): E.Env {
    E.Env(s => Strip(s), digest, fields, artifactsOk, RUN_SCHEMA)
  }

  lemma RunnerEnvIsReportEnv(digest: E.Case -> string, fields: set<string>, artifactsOk: E.Case -> bool)
    ensures R.ReportEnv(RunnerEnv(digest, fields, artifactsOk))
  {
    var env := RunnerEnv(digest, fields, artifactsOk);
    forall s ensures env.strip(env.strip(s)) == env.strip(s) { E.StripIsStable(s); }
    forall s | Hex(s, 64) ensures env.strip(s) == s { R.StripKeepsDigests(s); }
    assert Stripped(RUN_SCHEMA);
  }

  // The cases are as the loader leaves them: stripped, non-blank identifiers,
  // each of them once, positive versions, and hexadecimal digests.
  ghost predicate LoadedSuite(suite: E.Suite, digest: E.Case -> string) {
    && suite.suiteId != "" && Stripped(suite.suiteId) && E.DistinctIds(suite.cases)
    && forall c :: c in suite.cases ==> c.id != "" && Stripped(c.id) && c.version >= 1 && Hex(digest(c), 64)
  }

  // With the report's own field names, schema version and str.strip(): every run
  // produced from a loaded suite is read back from its report as it was.
  lemma ServiceReportsRoundTrip(suite: E.Suite, fixture: string, ids: set<string>, executor: E.Executor, limits: E.Limits,
                                from: Option<E.Run>, digest: E.Case -> string, fields: set<string>,
                                artifactsOk: E.Case -> bool, run: E.Run)
    requires LoadedSuite(suite, digest) && Hex(fixture, 64)
    requires E.Produces(suite, fixture, ids, executor, limits, from, RunnerEnv(digest, fields, artifactsOk), run)
    ensures R.Decode(R.Encode(run, ReportNames()), ReportNames(), RunnerEnv(digest, fields, artifactsOk)) == Some(run)
  {
    var env := RunnerEnv(digest, fields, artifactsOk);
    RunnerEnvIsReportEnv(digest, fields, artifactsOk);
    R.NamesAreInvertible();
    R.ProducedRunsRoundTrip(suite, fixture, ids, executor, limits, from, env, run, ReportNames());
  }

  // ---- The report, entry by entry ----

  predicate RunEntries(j: Json, run: E.Run) {
    && j.Obj?
    && j.Get("schema_version") == Str(run.schemaVersion) && j.Get("suite_id") == Str(run.suiteId)
    && j.Get("fixture_sha256") == Str(run.fixtureSha256)
    && j.Get("selected_case_ids") == Arr(R.Texts(run.selectedCaseIds))
    && j.Get("max_expected_cost") == run.maxExpectedCost && j.Get("max_concurrency") == run.maxConcurrency
    && j.Get("results").Arr? && |j.Get("results").items| == |run.results|
    && forall i :: 0 <= i < |run.results| ==> ResultEntries(j.Get("results").items[i], run.results[i])
  }

  predicate ResultEntries(j: Json, r: E.CaseResult) {
    && j.Obj?
    && j.Get("case_id") == Str(r.caseId) && j.Get("case_version") == Int(r.version) && j.Get("case_sha256") == Str(r.sha256)
    && j.Get("reused") == Bool(r.reused) && ObservationEntries(j.Get("observation"), r.observation)
  }

  predicate ObservationEntries(j: Json, o: E.Observation) {
    && j.Obj?
    && j.Get("boundary") == Str(o.boundary) && j.Get("side_effects") == Obj(o.effects)
    && j.Get("ground_truth_ids") == Arr(R.Texts(o.groundTruthIds))
    && j.Get("source_references") == Arr(R.Texts(o.sources)) && j.Get("cost") == o.cost
  }

  // The entry under each of the names, for any names that can be told apart.
  lemma ObservationNamed(o: E.Observation, n: R.Naming)
    requires R.Invertible(n)
    ensures var j := R.EncodeObservation(o, n);
            && j.Obj? && j.Get(n.name(R.Boundary)) == Str(o.boundary) && j.Get(n.name(R.SideEffects)) == Obj(o.effects)
            && j.Get(n.name(R.GroundTruthIds)) == Arr(R.Texts(o.groundTruthIds))
            && j.Get(n.name(R.SourceReferences)) == Arr(R.Texts(o.sources)) && j.Get(n.name(R.CostField)) == o.cost
  {
    Distinguished(n, [R.Boundary, R.SideEffects, R.GroundTruthIds, R.SourceReferences, R.CostField]);
  }

  lemma Distinguished(n: R.Naming, fields: seq<R.Field>)
    requires R.Invertible(n)
    ensures forall i, j :: 0 <= i < |fields| && 0 <= j < |fields| && fields[i] != fields[j] ==>
              n.name(fields[i]) != n.name(fields[j])
  {
    forall i, j | 0 <= i < |fields| && 0 <= j < |fields| && fields[i] != fields[j]
      ensures n.name(fields[i]) != n.name(fields[j])
    {
      assert n.field(n.name(fields[i])) == fields[i] && n.field(n.name(fields[j])) == fields[j];
    }
  }

  lemma ResultNamed(r: E.CaseResult, n: R.Naming)
    requires R.Invertible(n)
    ensures var j := R.EncodeResult(r, n);
            && j.Obj? && j.Get(n.name(R.CaseId)) == Str(r.caseId) && j.Get(n.name(R.CaseVersion)) == Int(r.version)
            && j.Get(n.name(R.CaseSha256)) == Str(r.sha256) && j.Get(n.name(R.ReusedField)) == Bool(r.reused)
            && j.Get(n.name(R.ObservationField)) == R.EncodeObservation(r.observation, n)
  {
    Distinguished(n, [R.CaseId, R.CaseVersion, R.CaseSha256, R.ReusedField, R.ObservationField]);
  }

  lemma RunNamed(run: E.Run, n: R.Naming)
    requires R.Invertible(n)
    ensures var j := R.Encode(run, n);
            && j.Obj? && j.Get(n.name(R.SchemaVersion)) == Str(run.schemaVersion)
            && j.Get(n.name(R.SuiteId)) == Str(run.suiteId) && j.Get(n.name(R.FixtureSha256)) == Str(run.fixtureSha256)
            && j.Get(n.name(R.SelectedCaseIds)) == Arr(R.Texts(run.selectedCaseIds))
            && j.Get(n.name(R.MaxExpectedCost)) == run.maxExpectedCost && j.Get(n.name(R.MaxConcurrency)) == run.maxConcurrency
            && j.Get(n.name(R.Results)) == Arr(R.EncodeResults(run.results, n))
  {
    Distinguished(n, [R.SchemaVersion, R.SuiteId, R.FixtureSha256, R.SelectedCaseIds, R.MaxExpectedCost, R.MaxConcurrency,
                      R.Results]);
  }

  // The names, as the functions below look them up.
  predicate SpelledOut(n: R.Naming) {
    && n.name(R.Boundary) == "boundary" && n.name(R.SideEffects) == "side_effects"
    && n.name(R.GroundTruthIds) == "ground_truth_ids" && n.name(R.SourceReferences) == "source_references"
    && n.name(R.CostField) == "cost"
    && n.name(R.CaseId) == "case_id" && n.name(R.CaseVersion) == "case_version"
    && n.name(R.CaseSha256) == "case_sha256" && n.name(R.ReusedField) == "reused"
    && n.name(R.ObservationField) == "observation"
    && n.name(R.SchemaVersion) == "schema_version" && n.name(R.SuiteId) == "suite_id"
    && n.name(R.FixtureSha256) == "fixture_sha256" && n.name(R.SelectedCaseIds) == "selected_case_ids"
    && n.name(R.MaxExpectedCost) == "max_expected_cost" && n.name(R.MaxConcurrency) == "max_concurrency"
    && n.name(R.Results) == "results"
  }

  lemma NamesAreSpelledOut()
    ensures SpelledOut(ReportNames())
  {
    forall f ensures ReportNames().name(f) == R.NameOf(f) {}
    Spelling(ReportNames());
  }

  lemma Spelling(n: R.Naming)
    requires forall f :: n.name(f) == R.NameOf(f)
    ensures SpelledOut(n)
  {
  }

  lemma ObservationSays(o: E.Observation, n: R.Naming)
    requires R.Invertible(n) && SpelledOut(n)
    ensures ObservationEntries(R.EncodeObservation(o, n), o)
  {
    ObservationNamed(o, n);
  }

  lemma ResultSays(r: E.CaseResult, n: R.Naming)
    requires R.Invertible(n) && SpelledOut(n)
    ensures ResultEntries(R.EncodeResult(r, n), r)
  {
    ObservationSays(r.observation, n);
    ResultNamed(r, n);
  }

  lemma TopSays(run: E.Run, n: R.Naming)
    requires R.Invertible(n) && SpelledOut(n)
    ensures var j := R.Encode(run, n);
            && j.Obj?
            && j.Get("schema_version") == Str(run.schemaVersion) && j.Get("suite_id") == Str(run.suiteId)
            && j.Get("fixture_sha256") == Str(run.fixtureSha256)
            && j.Get("selected_case_ids") == Arr(R.Texts(run.selectedCaseIds))
            && j.Get("max_expected_cost") == run.maxExpectedCost && j.Get("max_concurrency") == run.maxConcurrency
            && j.Get("results") == Arr(R.EncodeResults(run.results, n))
  {
    RunNamed(run, n);
  }

  // The report says under each name what it is named for.
  lemma ReportSays(run: E.Run)
    ensures RunEntries(R.Encode(run, ReportNames()), run)
  {
    var n := ReportNames();
    R.NamesAreInvertible();
    NamesAreSpelledOut();
    TopSays(run, n);
    forall i | 0 <= i < |run.results| ensures ResultEntries(R.EncodeResults(run.results, n)[i], run.results[i]) {
      ResultSays(run.results[i], n);
    }
  }

  // A report that is read has exactly the fields of a report.
  lemma ReadReportHasItsFields(j: Json, env: E.Env)
    requires R.Decode(j, ReportNames(), env).Some?
    ensures j.Obj? && j.fields.Keys == {"schema_version", "suite_id", "fixture_sha256", "selected_case_ids",
                                        "max_expected_cost", "max_concurrency", "results"}
  {
    var n := ReportNames();
    assert j.fields.Keys == {n.name(R.SchemaVersion), n.name(R.SuiteId), n.name(R.FixtureSha256), n.name(R.SelectedCaseIds),
                             n.name(R.MaxExpectedCost), n.name(R.MaxConcurrency), n.name(R.Results)};
  }

  // With the manifest's own field names: nothing differs exactly when the stored
  // manifest equals the expected one to Python.
  lemma StoredManifestIsExpected(e: M.Expected, actual: Json)
    requires StrictlySorted(M.Paths(e.files))
    ensures M.Clean(e, actual, M.NAMES) <==> PyEq(actual, M.AsJson(e, M.NAMES))
  {
    M.NamesAreDifferent();
    M.NoDifferenceMeansEqual(e, actual, M.NAMES);
  }
}
