// Which reports are read, exactly, and what is read from them.
module ReportReading {
  import opened Basics
  import opened JsonTree
  import opened EvaluationRunner
  import opened RunReport
  import opened RunOutcomes

  // ---- Entries ----

  predicate GivenText(j: Json, env: Env) {
    j.Str? && env.strip(j.s) != ""
  }

  predicate GivenDigest(j: Json, env: Env) {
    j.Str? && |env.strip(j.s)| == 64
    && forall i :: 0 <= i < 64 ==> '0' <= env.strip(j.s)[i] <= '9' || 'a' <= env.strip(j.s)[i] <= 'f'
  }

  predicate GivenTexts(j: Json, env: Env) {
    && j.Arr? && (forall i :: 0 <= i < |j.items| ==> GivenText(j.items[i], env))
    && forall i, k :: 0 <= i < k < |j.items| ==> env.strip(j.items[i].s) != env.strip(j.items[k].s)
  }

  // The texts that are read are the given ones, stripped.
  predicate ReadTexts(j: Json, texts: seq<string>, env: Env)
    requires GivenTexts(j, env)
  {
    |texts| == |j.items| && forall i :: 0 <= i < |texts| ==> texts[i] == env.strip(j.items[i].s)
  }

  predicate GivenAmount(j: Json) {
    (j.Int? && j.i >= 0) || (j.Float? && j.r >= 0.0)
  }

  predicate GivenCounts(j: Json, env: Env) {
    j.Obj? && j.fields.Keys == env.fields && forall k :: k in env.fields ==> j.fields[k].Int? && j.fields[k].i >= 0
  }

  lemma DigestExactly(j: Json, env: Env)
    ensures RequireSha256(j, env).Some? <==> GivenDigest(j, env)
    ensures GivenDigest(j, env) ==> RequireSha256(j, env) == Some(env.strip(j.s))
  {
    if j.Str? { HexExactly(env.strip(j.s), 64); }
  }

  lemma {:induction false} TextsRead(items: seq<Json>, env: Env)
    ensures RequireTexts(items, env).Some? <==> forall i :: 0 <= i < |items| ==> GivenText(items[i], env)
    ensures RequireTexts(items, env).Some? ==>
              var texts := RequireTexts(items, env).value;
              |texts| == |items| && forall i :: 0 <= i < |items| ==> items[i].Str? && texts[i] == env.strip(items[i].s)
  {
    if items != [] {
      var n := |items| - 1;
      TextsRead(items[..n], env);
      assert TextDecoder(env)(items[n]) == RequireText(items[n], env);
    }
  }

  lemma TextListExactly(j: Json, env: Env)
    ensures RequireDistinctTexts(j, env).Some? <==> GivenTexts(j, env)
    ensures GivenTexts(j, env) ==> ReadTexts(j, RequireDistinctTexts(j, env).value, env)
  {
    if j.Arr? {
      TextsRead(j.items, env);
      if RequireTexts(j.items, env).Some? {
        var texts := RequireTexts(j.items, env).value;
        if Distinct(texts) {
          forall i, k | 0 <= i < k < |j.items| ensures env.strip(j.items[i].s) != env.strip(j.items[k].s) {
            assert texts[i] != texts[k];
          }
        }
      }
    }
  }

  // ---- Observations ----

  predicate GivenObservation(j: Json, n: Naming, env: Env) {
    && j.Obj? && j.fields.Keys == {n.name(Boundary), n.name(SideEffects), n.name(GroundTruthIds), n.name(SourceReferences),
                                   n.name(CostField)}
    && GivenText(j.fields[n.name(Boundary)], env) && GivenCounts(j.fields[n.name(SideEffects)], env)
    && GivenTexts(j.fields[n.name(GroundTruthIds)], env) && GivenTexts(j.fields[n.name(SourceReferences)], env)
    && GivenAmount(j.fields[n.name(CostField)])
  }

  predicate ReadObservation(j: Json, o: Observation, n: Naming, env: Env)
    requires GivenObservation(j, n, env)
  {
    && o.boundary == env.strip(j.fields[n.name(Boundary)].s) && o.effects == j.fields[n.name(SideEffects)].fields
    && ReadTexts(j.fields[n.name(GroundTruthIds)], o.groundTruthIds, env)
    && ReadTexts(j.fields[n.name(SourceReferences)], o.sources, env) && o.cost == j.fields[n.name(CostField)]
  }

  // What was read is validated again, which changes nothing.
  lemma StrippedIsProper(o: Observation, env: Env)
    requires ValidEnv(env) && o.effects.Keys == env.fields && Amount(o.cost) && o.boundary != "" && env.strip(o.boundary) == o.boundary
    requires forall k :: k in o.effects ==> Count(o.effects[k])
    requires Distinct(o.groundTruthIds) && Distinct(o.sources)
    requires forall i :: 0 <= i < |o.groundTruthIds| ==> o.groundTruthIds[i] != "" && env.strip(o.groundTruthIds[i]) == o.groundTruthIds[i]
    requires forall i :: 0 <= i < |o.sources| ==> o.sources[i] != "" && env.strip(o.sources[i]) == o.sources[i]
    ensures ValidatedObservation(o, env) == Some(o)
  {
    ObservationExactly(o, env);
    var kept := ValidatedObservation(o, env).value;
    assert kept.groundTruthIds == o.groundTruthIds && kept.sources == o.sources;
  }

  lemma PartsExactly(boundary: Json, effects: Json, ids: Json, sources: Json, cost: Json, env: Env)
    requires ValidEnv(env)
    ensures var o := ObservationOf(boundary, effects, ids, sources, cost, env);
            && (o.Some? <==> GivenText(boundary, env) && GivenCounts(effects, env) && GivenTexts(ids, env)
                             && GivenTexts(sources, env) && GivenAmount(cost))
            && (o.Some? ==> o.value.boundary == env.strip(boundary.s) && o.value.effects == effects.fields
                            && ReadTexts(ids, o.value.groundTruthIds, env) && ReadTexts(sources, o.value.sources, env)
                            && o.value.cost == cost)
  {
    TextListExactly(ids, env);
    TextListExactly(sources, env);
    CountsExactly(effects, env);
    if GivenText(boundary, env) && GivenCounts(effects, env) && GivenTexts(ids, env) && GivenTexts(sources, env) && GivenAmount(cost) {
      var (truths, references) := (RequireDistinctTexts(ids, env).value, RequireDistinctTexts(sources, env).value);
      StrippedIsProper(Observation(env.strip(boundary.s), effects.fields, truths, references, cost), env);
    }
  }

  lemma CountsExactly(effects: Json, env: Env)
    ensures GivenCounts(effects, env) <==>
              effects.Obj? && effects.fields.Keys == env.fields && forall k :: k in effects.fields ==> Count(effects.fields[k])
  {
  }

  lemma ObservationsRead(j: Json, n: Naming, env: Env)
    requires ValidEnv(env)
    ensures DecodeObservation(j, n, env).Some? <==> GivenObservation(j, n, env)
    ensures GivenObservation(j, n, env) ==> ReadObservation(j, DecodeObservation(j, n, env).value, n, env)
  {
    if j.Obj? && j.fields.Keys == {n.name(Boundary), n.name(SideEffects), n.name(GroundTruthIds), n.name(SourceReferences),
                                   n.name(CostField)} {
      PartsExactly(j.fields[n.name(Boundary)], j.fields[n.name(SideEffects)], j.fields[n.name(GroundTruthIds)],
                   j.fields[n.name(SourceReferences)], j.fields[n.name(CostField)], env);
    }
  }

  // ---- Results ----

  predicate GivenResult(j: Json, n: Naming, env: Env) {
    && j.Obj? && j.fields.Keys == {n.name(CaseId), n.name(CaseVersion), n.name(CaseSha256), n.name(ObservationField),
                                   n.name(ReusedField)}
    && GivenText(j.fields[n.name(CaseId)], env)
    && j.fields[n.name(CaseVersion)].Int? && j.fields[n.name(CaseVersion)].i >= 1
    && GivenDigest(j.fields[n.name(CaseSha256)], env) && GivenObservation(j.fields[n.name(ObservationField)], n, env)
    && j.fields[n.name(ReusedField)].Bool?
  }

  predicate ReadResult(j: Json, r: CaseResult, n: Naming, env: Env)
    requires GivenResult(j, n, env)
  {
    && r.caseId == env.strip(j.fields[n.name(CaseId)].s) && r.version == j.fields[n.name(CaseVersion)].i
    && r.sha256 == env.strip(j.fields[n.name(CaseSha256)].s)
    && ReadObservation(j.fields[n.name(ObservationField)], r.observation, n, env)
    && r.reused == j.fields[n.name(ReusedField)].b
  }

  lemma ResultsRead(j: Json, n: Naming, env: Env)
    requires ValidEnv(env)
    ensures DecodeResult(j, n, env).Some? <==> GivenResult(j, n, env)
    ensures GivenResult(j, n, env) ==> ReadResult(j, DecodeResult(j, n, env).value, n, env)
  {
    if j.Obj? && j.fields.Keys == {n.name(CaseId), n.name(CaseVersion), n.name(CaseSha256), n.name(ObservationField),
                                   n.name(ReusedField)} {
      DigestExactly(j.fields[n.name(CaseSha256)], env);
      ObservationsRead(j.fields[n.name(ObservationField)], n, env);
    }
  }

  lemma {:induction false} DecodeAllExactly<T>(items: seq<Json>, decode: Json -> Option<T>)
    ensures DecodeAll(items, decode).Some? <==> forall i :: 0 <= i < |items| ==> decode(items[i]).Some?
  {
    if items != [] {
      DecodeAllExactly(items[..|items| - 1], decode);
    }
  }

  lemma AllResultsRead(items: seq<Json>, n: Naming, env: Env)
    requires ValidEnv(env)
    ensures DecodeResults(items, n, env).Some? <==> forall i :: 0 <= i < |items| ==> GivenResult(items[i], n, env)
    ensures DecodeResults(items, n, env).Some? ==>
              var results := DecodeResults(items, n, env).value;
              |results| == |items|
              && forall i :: 0 <= i < |items| ==> GivenResult(items[i], n, env) && ReadResult(items[i], results[i], n, env)
  {
    var decode := ResultDecoder(n, env);
    DecodeAllExactly(items, decode);
    forall i | 0 <= i < |items| ensures decode(items[i]).Some? <==> GivenResult(items[i], n, env) {
      ResultsRead(items[i], n, env);
    }
    if DecodeResults(items, n, env).Some? {
      DecodedEach(items, decode);
      forall i | 0 <= i < |items|
        ensures GivenResult(items[i], n, env) && ReadResult(items[i], DecodeResults(items, n, env).value[i], n, env)
      {
        ResultsRead(items[i], n, env);
      }
    }
  }

  // ---- Reports ----

  predicate GivenResults(j: Json, n: Naming, env: Env) {
    && j.Arr? && (forall i :: 0 <= i < |j.items| ==> GivenResult(j.items[i], n, env))
    && forall i, k :: 0 <= i < k < |j.items| ==>
         env.strip(j.items[i].fields[n.name(CaseId)].s) != env.strip(j.items[k].fields[n.name(CaseId)].s)
  }

  predicate GivenParts(schema: Json, suite: Json, fixture: Json, ids: Json, cost: Json, concurrency: Json, results: Json,
                       n: Naming, env: Env) {
    && GivenText(schema, env) && env.strip(schema.s) == env.schemaVersion
    && GivenText(suite, env) && GivenDigest(fixture, env) && GivenTexts(ids, env)
    && (cost == Null || GivenAmount(cost)) && concurrency.Int? && concurrency.i >= 1 && GivenResults(results, n, env)
  }

  predicate ReadParts(run: Run, suite: Json, fixture: Json, ids: Json, cost: Json, concurrency: Json, results: Json,
                      n: Naming, env: Env)
    requires GivenTexts(ids, env) && GivenResults(results, n, env)
  {
    && run.schemaVersion == env.schemaVersion
    && suite.Str? && run.suiteId == env.strip(suite.s) && fixture.Str? && run.fixtureSha256 == env.strip(fixture.s)
    && ReadTexts(ids, run.selectedCaseIds, env) && run.maxExpectedCost == cost && run.maxConcurrency == concurrency
    && |run.results| == |results.items|
    && forall i :: 0 <= i < |run.results| ==> ReadResult(results.items[i], run.results[i], n, env)
  }

  lemma DistinctResultsExactly(j: Json, n: Naming, env: Env)
    requires ValidEnv(env) && j.Arr? && DecodeResults(j.items, n, env).Some?
    ensures DistinctResults(DecodeResults(j.items, n, env).value) <==> GivenResults(j, n, env)
  {
    AllResultsRead(j.items, n, env);
    var results := DecodeResults(j.items, n, env).value;
    forall i | 0 <= i < |j.items| ensures results[i].caseId == env.strip(j.items[i].fields[n.name(CaseId)].s) {
      assert ReadResult(j.items[i], results[i], n, env);
    }
    if DistinctResults(results) {
      forall i, k | 0 <= i < k < |j.items|
        ensures env.strip(j.items[i].fields[n.name(CaseId)].s) != env.strip(j.items[k].fields[n.name(CaseId)].s)
      {
        assert results[i].caseId != results[k].caseId;
      }
    }
  }

  // The results that are read of an entry, if they are read.
  function ResultsOf(j: Json, n: Naming, env: Env): Option<seq<CaseResult>> {
    if !j.Arr? then None
    else match DecodeResults(j.items, n, env)
      case None => None
      case Some(results) => if DistinctResults(results) then Some(results) else None
  }

  lemma ResultsOfExactly(j: Json, n: Naming, env: Env)
    requires ValidEnv(env)
    ensures ResultsOf(j, n, env).Some? <==> GivenResults(j, n, env)
    ensures GivenResults(j, n, env) ==>
              var results := ResultsOf(j, n, env).value;
              |results| == |j.items| && forall i :: 0 <= i < |results| ==> ReadResult(j.items[i], results[i], n, env)
  {
    if j.Arr? {
      AllResultsRead(j.items, n, env);
      if DecodeResults(j.items, n, env).Some? { DistinctResultsExactly(j, n, env); }
    }
  }

  lemma RunOfParts(schema: Json, suite: Json, fixture: Json, ids: Json, cost: Json, concurrency: Json, results: Json,
                   n: Naming, env: Env)
    ensures var run := RunOf(schema, suite, fixture, ids, cost, concurrency, results, n, env);
            && (run.Some? <==>
                  && RequireText(schema, env) == Some(env.schemaVersion) && PositiveInteger(concurrency)
                  && (cost.Null? || Amount(cost)) && RequireText(suite, env).Some? && RequireSha256(fixture, env).Some?
                  && RequireDistinctTexts(ids, env).Some? && ResultsOf(results, n, env).Some?)
            && (run.Some? ==>
                  run.value == Run(env.schemaVersion, RequireText(suite, env).value, RequireSha256(fixture, env).value,
                                   RequireDistinctTexts(ids, env).value, cost, concurrency, ResultsOf(results, n, env).value))
  {
  }

  lemma PartsRead(schema: Json, suite: Json, fixture: Json, ids: Json, cost: Json, concurrency: Json, results: Json,
                  n: Naming, env: Env)
    requires ValidEnv(env) && env.schemaVersion != ""
    ensures var run := RunOf(schema, suite, fixture, ids, cost, concurrency, results, n, env);
            && (run.Some? <==> GivenParts(schema, suite, fixture, ids, cost, concurrency, results, n, env))
            && (run.Some? ==> ReadParts(run.value, suite, fixture, ids, cost, concurrency, results, n, env))
  {
    DigestExactly(fixture, env);
    TextListExactly(ids, env);
    ResultsOfExactly(results, n, env);
    RunOfParts(schema, suite, fixture, ids, cost, concurrency, results, n, env);
  }

  predicate ReportKeys(j: Json, n: Naming) {
    j.Obj? && j.fields.Keys == {n.name(SchemaVersion), n.name(SuiteId), n.name(FixtureSha256), n.name(SelectedCaseIds),
                                n.name(MaxExpectedCost), n.name(MaxConcurrency), n.name(Results)}
  }

  predicate GivenReport(j: Json, n: Naming, env: Env) {
    && ReportKeys(j, n)
    && GivenParts(j.fields[n.name(SchemaVersion)], j.fields[n.name(SuiteId)], j.fields[n.name(FixtureSha256)],
                  j.fields[n.name(SelectedCaseIds)], j.fields[n.name(MaxExpectedCost)], j.fields[n.name(MaxConcurrency)],
                  j.fields[n.name(Results)], n, env)
  }

  // A report is read if and only if it has exactly its fields, the schema
  // version, texts, digests, amounts and counts where they belong, and no case
  // twice; what is read is what it says, texts stripped.
  lemma ReportsRead(j: Json, n: Naming, env: Env)
    requires ValidEnv(env) && env.schemaVersion != ""
    ensures Decode(j, n, env).Some? <==> GivenReport(j, n, env)
    ensures GivenReport(j, n, env) ==>
              ReadParts(Decode(j, n, env).value, j.fields[n.name(SuiteId)], j.fields[n.name(FixtureSha256)],
                        j.fields[n.name(SelectedCaseIds)], j.fields[n.name(MaxExpectedCost)],
                        j.fields[n.name(MaxConcurrency)], j.fields[n.name(Results)], n, env)
  {
    if ReportKeys(j, n) {
      PartsRead(j.fields[n.name(SchemaVersion)], j.fields[n.name(SuiteId)], j.fields[n.name(FixtureSha256)],
                j.fields[n.name(SelectedCaseIds)], j.fields[n.name(MaxExpectedCost)], j.fields[n.name(MaxConcurrency)],
                j.fields[n.name(Results)], n, env);
    }
  }
}
