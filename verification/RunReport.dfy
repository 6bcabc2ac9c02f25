// The machine-readable report of an evaluation run, as a JSON tree, and its
// strict decoder.
module RunReport {
  import opened Basics
  import opened JsonTree
  import opened EvaluationRunner

  datatype Field =
    | SchemaVersion | SuiteId | FixtureSha256 | SelectedCaseIds | MaxExpectedCost | MaxConcurrency | Results
    | CaseId | CaseVersion | CaseSha256 | ObservationField | ReusedField
    | Boundary | SideEffects | GroundTruthIds | SourceReferences | CostField

  function NameOf(f: Field): string {
    match f
    case SchemaVersion => "schema_version"
    case SuiteId => "suite_id"
    case FixtureSha256 => "fixture_sha256"
    case SelectedCaseIds => "selected_case_ids"
    case MaxExpectedCost => "max_expected_cost"
    case MaxConcurrency => "max_concurrency"
    case Results => "results"
    case CaseId => "case_id"
    case CaseVersion => "case_version"
    case CaseSha256 => "case_sha256"
    case ObservationField => "observation"
    case ReusedField => "reused"
    case Boundary => "boundary"
    case SideEffects => "side_effects"
    case GroundTruthIds => "ground_truth_ids"
    case SourceReferences => "source_references"
    case CostField => "cost"
  }

  // Names for the fields, and the field that a name stands for.
  datatype Naming = Naming(name: Field -> string, field: string -> Field)

  ghost predicate Invertible(n: Naming) {
    forall f :: n.field(n.name(f)) == f
  }

  // Length and first two characters tell the names apart.
  function Mark(f: Field): (int, char, char) {
    match f
    case SchemaVersion => (14, 's', 'c')
    case SuiteId => (8, 's', 'u')
    case FixtureSha256 => (14, 'f', 'i')
    case SelectedCaseIds => (17, 's', 'e')
    case MaxExpectedCost => (17, 'm', 'a')
    case MaxConcurrency => (15, 'm', 'a')
    case Results => (7, 'r', 'e')
    case CaseId => (7, 'c', 'a')
    case CaseVersion => (12, 'c', 'a')
    case CaseSha256 => (11, 'c', 'a')
    case ObservationField => (11, 'o', 'b')
    case ReusedField => (6, 'r', 'e')
    case Boundary => (8, 'b', 'o')
    case SideEffects => (12, 's', 'i')
    case GroundTruthIds => (16, 'g', 'r')
    case SourceReferences => (17, 's', 'o')
    case CostField => (4, 'c', 'o')
  }

  lemma NameHasMark(f: Field)
    ensures |NameOf(f)| > 1 && (|NameOf(f)|, NameOf(f)[0], NameOf(f)[1]) == Mark(f)
  {
  }

  lemma NamesDiffer(f: Field, g: Field)
    requires NameOf(f) == NameOf(g)
    ensures f == g
  {
    NameHasMark(f);
    NameHasMark(g);
  }

  ghost function FieldOf(s: string): Field {
    if exists f :: NameOf(f) == s then var f :| NameOf(f) == s; f else SchemaVersion
  }

  // The names of the report are such a naming.
  lemma NamesAreInvertible()
    ensures forall f :: FieldOf(NameOf(f)) == f
  {
    forall f ensures FieldOf(NameOf(f)) == f {
      NamesDiffer(FieldOf(NameOf(f)), f);
    }
  }

  // ---- Encoding ----

  function Texts(texts: seq<string>): (r: seq<Json>)
    ensures |r| == |texts| && forall i :: 0 <= i < |r| ==> r[i] == Str(texts[i])
  {
    if texts == [] then [] else Texts(texts[..|texts| - 1]) + [Str(texts[|texts| - 1])]
  }

  function EncodeObservation(o: Observation, name: Naming): Json {
    Obj(map[name.name(Boundary) := Str(o.boundary), name.name(SideEffects) := Obj(o.effects),
            name.name(GroundTruthIds) := Arr(Texts(o.groundTruthIds)), name.name(SourceReferences) := Arr(Texts(o.sources)),
            name.name(CostField) := o.cost])
  }

  function ResultRecord(id: Json, version: Json, sha: Json, observation: Json, reused: Json, name: Naming): map<string, Json> {
    map[name.name(CaseId) := id, name.name(CaseVersion) := version, name.name(CaseSha256) := sha,
        name.name(ObservationField) := observation, name.name(ReusedField) := reused]
  }

  function EncodeResult(r: CaseResult, name: Naming): Json {
    Obj(ResultRecord(Str(r.caseId), Int(r.version), Str(r.sha256), EncodeObservation(r.observation, name), Bool(r.reused), name))
  }

  function EncodeResults(results: seq<CaseResult>, name: Naming): (r: seq<Json>)
    ensures |r| == |results| && forall i :: 0 <= i < |r| ==> r[i] == EncodeResult(results[i], name)
  {
    if results == [] then []
    else EncodeResults(results[..|results| - 1], name) + [EncodeResult(results[|results| - 1], name)]
  }

  function RunRecord(schema: Json, suite: Json, fixture: Json, ids: Json, cost: Json, concurrency: Json, results: Json,
                     name: Naming): map<string, Json>
  {
    map[name.name(SchemaVersion) := schema, name.name(SuiteId) := suite, name.name(FixtureSha256) := fixture,
        name.name(SelectedCaseIds) := ids, name.name(MaxExpectedCost) := cost, name.name(MaxConcurrency) := concurrency,
        name.name(Results) := results]
  }

  function Encode(run: Run, name: Naming): Json {
    Obj(RunRecord(Str(run.schemaVersion), Str(run.suiteId), Str(run.fixtureSha256), Arr(Texts(run.selectedCaseIds)),
                  run.maxExpectedCost, run.maxConcurrency, Arr(EncodeResults(run.results, name)), name))
  }

  // ---- Decoding ----

  function RequireText(j: Json, env: Env): Option<string> {
    if j.Str? && env.strip(j.s) != "" then Some(env.strip(j.s)) else None
  }

  function RequireSha256(j: Json, env: Env): Option<string> {
    match RequireText(j, env)
    case None => None
    case Some(s) => if Hex(s, 64) then Some(s) else None
  }

  // Decodes every item of a list, or nothing.
  function DecodeAll<T>(items: seq<Json>, decode: Json -> Option<T>): Option<seq<T>> {
    if items == [] then Some([])
    else match (DecodeAll(items[..|items| - 1], decode), decode(items[|items| - 1]))
      case (Some(rest), Some(last)) => Some(rest + [last])
      case _ => None
  }

  lemma {:induction false} DecodesEach<T>(items: seq<Json>, values: seq<T>, decode: Json -> Option<T>)
    requires |items| == |values| && forall i :: 0 <= i < |items| ==> decode(items[i]) == Some(values[i])
    ensures DecodeAll(items, decode) == Some(values)
  {
    if items != [] {
      var n := |items| - 1;
      DecodesEach(items[..n], values[..n], decode);
      assert values == values[..n] + [values[n]];
    }
  }

  lemma {:induction false} DecodedEach<T>(items: seq<Json>, decode: Json -> Option<T>)
    requires DecodeAll(items, decode).Some?
    ensures |DecodeAll(items, decode).value| == |items|
    ensures forall i :: 0 <= i < |items| ==> decode(items[i]) == Some(DecodeAll(items, decode).value[i])
  {
    if items != [] {
      DecodedEach(items[..|items| - 1], decode);
    }
  }

  function TextDecoder(env: Env): Json -> Option<string> {
    (j: Json) => RequireText(j, env)
  }

  function RequireTexts(items: seq<Json>, env: Env): Option<seq<string>> {
    DecodeAll(items, TextDecoder(env))
  }

  function RequireDistinctTexts(j: Json, env: Env): Option<seq<string>> {
    if !j.Arr? then None
    else match RequireTexts(j.items, env)
      case None => None
      case Some(texts) => if Distinct(texts) then Some(texts) else None
  }

  function ObservationOf(boundary: Json, effects: Json, ids: Json, sources: Json, cost: Json, env: Env): Option<Observation> {
    if !effects.Obj? || effects.fields.Keys != env.fields then None
    else if exists k :: k in effects.fields && !Count(effects.fields[k]) then None
    else if !Amount(cost) then None
    else match (RequireText(boundary, env), RequireDistinctTexts(ids, env), RequireDistinctTexts(sources, env))
      case (Some(text), Some(truths), Some(references)) =>
        ValidatedObservation(Observation(text, effects.fields, truths, references, cost), env)
      case _ => None
  }

  function DecodeObservation(j: Json, name: Naming, env: Env): Option<Observation> {
    if !j.Obj? || j.fields.Keys != {name.name(Boundary), name.name(SideEffects), name.name(GroundTruthIds),
                                    name.name(SourceReferences), name.name(CostField)}
    then None
    else ObservationOf(j.fields[name.name(Boundary)], j.fields[name.name(SideEffects)], j.fields[name.name(GroundTruthIds)],
                       j.fields[name.name(SourceReferences)], j.fields[name.name(CostField)], env)
  }

  function ResultOf(id: Json, version: Json, sha: Json, observation: Json, reused: Json, name: Naming, env: Env)
    : Option<CaseResult>
  {
    if !reused.Bool? || !PositiveInteger(version) then None
    else match (RequireText(id, env), RequireSha256(sha, env), DecodeObservation(observation, name, env))
      case (Some(text), Some(digest), Some(o)) => Some(CaseResult(text, version.i, digest, o, reused.b))
      case _ => None
  }

  function DecodeResult(j: Json, name: Naming, env: Env): Option<CaseResult> {
    if !j.Obj? || j.fields.Keys != {name.name(CaseId), name.name(CaseVersion), name.name(CaseSha256),
                                    name.name(ObservationField), name.name(ReusedField)}
    then None
    else ResultOf(j.fields[name.name(CaseId)], j.fields[name.name(CaseVersion)], j.fields[name.name(CaseSha256)],
                  j.fields[name.name(ObservationField)], j.fields[name.name(ReusedField)], name, env)
  }

  function ResultDecoder(name: Naming, env: Env): Json -> Option<CaseResult> {
    (j: Json) => DecodeResult(j, name, env)
  }

  function DecodeResults(items: seq<Json>, name: Naming, env: Env): Option<seq<CaseResult>> {
    DecodeAll(items, ResultDecoder(name, env))
  }

  predicate DistinctResults(results: seq<CaseResult>) {
    forall i, j :: 0 <= i < j < |results| ==> results[i].caseId != results[j].caseId
  }

  predicate PositiveInteger(j: Json) {
    j.Int? && j.i >= 1
  }

  function RunOf(schema: Json, suite: Json, fixture: Json, ids: Json, cost: Json, concurrency: Json, results: Json,
                 name: Naming, env: Env): Option<Run>
  {
    if RequireText(schema, env) != Some(env.schemaVersion) then None
    else if !PositiveInteger(concurrency) || !(cost.Null? || Amount(cost)) || !results.Arr? then None
    else match (RequireText(suite, env), RequireSha256(fixture, env), RequireDistinctTexts(ids, env),
                DecodeResults(results.items, name, env))
      case (Some(suiteId), Some(digest), Some(selected), Some(decoded)) =>
        if DistinctResults(decoded) then Some(Run(env.schemaVersion, suiteId, digest, selected, cost, concurrency, decoded))
        else None
      case _ => None
  }

  function Decode(j: Json, name: Naming, env: Env): Option<Run> {
    if !j.Obj? || j.fields.Keys != {name.name(SchemaVersion), name.name(SuiteId), name.name(FixtureSha256),
                                    name.name(SelectedCaseIds), name.name(MaxExpectedCost), name.name(MaxConcurrency),
                                    name.name(Results)}
    then None
    else RunOf(j.fields[name.name(SchemaVersion)], j.fields[name.name(SuiteId)], j.fields[name.name(FixtureSha256)],
               j.fields[name.name(SelectedCaseIds)], j.fields[name.name(MaxExpectedCost)],
               j.fields[name.name(MaxConcurrency)], j.fields[name.name(Results)], name, env)
  }

  // ---- Runs that survive the round trip ----

  // str.strip() also leaves hexadecimal digests alone.
  ghost predicate ReportEnv(env: Env) {
    ValidEnv(env) && Text(env.schemaVersion, env) && forall s :: Hex(s, 64) ==> env.strip(s) == s
  }

  lemma StripKeepsDigests(s: string)
    requires Hex(s, 64)
    ensures Strip(s) == s
  {
    DigitIsNoSpace(s[0]);
    DigitIsNoSpace(s[63]);
  }

  lemma DigitIsNoSpace(c: char)
    requires c in "0123456789abcdef"
    ensures !IsSpace(c)
  {
    assert '0' <= c <= 'f';
  }

  predicate Text(s: string, env: Env) {
    s != "" && env.strip(s) == s
  }

  predicate TextList(texts: seq<string>, env: Env) {
    Distinct(texts) && forall i :: 0 <= i < |texts| ==> Text(texts[i], env)
  }

  ghost predicate ResultOk(r: CaseResult, env: Env) {
    && Text(r.caseId, env) && r.version >= 1 && Hex(r.sha256, 64)
    && ValidatedObservation(r.observation, env) == Some(r.observation)
  }

  ghost predicate RunOk(run: Run, env: Env) {
    && run.schemaVersion == env.schemaVersion && Text(run.suiteId, env) && Hex(run.fixtureSha256, 64)
    && TextList(run.selectedCaseIds, env) && (run.maxExpectedCost.Null? || Amount(run.maxExpectedCost))
    && PositiveInteger(run.maxConcurrency) && DistinctResults(run.results)
    && forall i :: 0 <= i < |run.results| ==> ResultOk(run.results[i], env)
  }

  lemma TextsDecode(texts: seq<string>, env: Env)
    requires forall i :: 0 <= i < |texts| ==> Text(texts[i], env)
    ensures RequireTexts(Texts(texts), env) == Some(texts)
  {
    DecodesEach(Texts(texts), texts, TextDecoder(env));
  }

  lemma TextListDecodes(texts: seq<string>, env: Env)
    requires TextList(texts, env)
    ensures RequireDistinctTexts(Arr(Texts(texts)), env) == Some(texts)
  {
    TextsDecode(texts, env);
  }

  lemma ValidatedIsText(o: Observation, env: Env)
    requires ValidEnv(env) && ValidatedObservation(o, env) == Some(o)
    ensures Text(o.boundary, env) && TextList(o.groundTruthIds, env) && TextList(o.sources, env)
    ensures o.effects.Keys == env.fields && Amount(o.cost) && forall k :: k in o.effects ==> Count(o.effects[k])
  {
    DistinctTextsAreTexts(o.groundTruthIds, env);
    DistinctTextsAreTexts(o.sources, env);
  }

  lemma DistinctTextsAreTexts(texts: seq<string>, env: Env)
    requires ValidEnv(env) && DistinctTexts(texts, env).Some?
    ensures TextList(DistinctTexts(texts, env).value, env)
  {
  }

  lemma ObservationFields(o: Observation, name: Naming)
    requires Invertible(name)
    ensures var f := EncodeObservation(o, name).fields;
            && f.Keys == {name.name(Boundary), name.name(SideEffects), name.name(GroundTruthIds),
                          name.name(SourceReferences), name.name(CostField)}
            && f[name.name(Boundary)] == Str(o.boundary) && f[name.name(SideEffects)] == Obj(o.effects)
            && f[name.name(GroundTruthIds)] == Arr(Texts(o.groundTruthIds))
            && f[name.name(SourceReferences)] == Arr(Texts(o.sources)) && f[name.name(CostField)] == o.cost
  {
  }

  lemma ResultFields(id: Json, version: Json, sha: Json, observation: Json, reused: Json, name: Naming)
    requires Invertible(name)
    ensures var f := ResultRecord(id, version, sha, observation, reused, name);
            && f.Keys == {name.name(CaseId), name.name(CaseVersion), name.name(CaseSha256),
                          name.name(ObservationField), name.name(ReusedField)}
            && f[name.name(CaseId)] == id && f[name.name(CaseVersion)] == version && f[name.name(CaseSha256)] == sha
            && f[name.name(ObservationField)] == observation && f[name.name(ReusedField)] == reused
  {
  }

  lemma RunFields(schema: Json, suite: Json, fixture: Json, ids: Json, cost: Json, concurrency: Json, results: Json,
                  name: Naming)
    requires Invertible(name)
    ensures var f := RunRecord(schema, suite, fixture, ids, cost, concurrency, results, name);
            && f.Keys == {name.name(SchemaVersion), name.name(SuiteId), name.name(FixtureSha256), name.name(SelectedCaseIds),
                          name.name(MaxExpectedCost), name.name(MaxConcurrency), name.name(Results)}
            && f[name.name(SchemaVersion)] == schema && f[name.name(SuiteId)] == suite
            && f[name.name(FixtureSha256)] == fixture && f[name.name(SelectedCaseIds)] == ids
            && f[name.name(MaxExpectedCost)] == cost && f[name.name(MaxConcurrency)] == concurrency
            && f[name.name(Results)] == results
  {
  }

  lemma EncodedResult(r: CaseResult, name: Naming)
    requires Invertible(name)
    ensures var f := EncodeResult(r, name).fields;
            && f.Keys == {name.name(CaseId), name.name(CaseVersion), name.name(CaseSha256),
                          name.name(ObservationField), name.name(ReusedField)}
            && f[name.name(CaseId)] == Str(r.caseId) && f[name.name(CaseVersion)] == Int(r.version)
            && f[name.name(CaseSha256)] == Str(r.sha256) && f[name.name(ReusedField)] == Bool(r.reused)
            && f[name.name(ObservationField)] == EncodeObservation(r.observation, name)
  {
    ResultFields(Str(r.caseId), Int(r.version), Str(r.sha256), EncodeObservation(r.observation, name), Bool(r.reused), name);
  }

  lemma EncodedRun(run: Run, name: Naming)
    requires Invertible(name)
    ensures var f := Encode(run, name).fields;
            && f.Keys == {name.name(SchemaVersion), name.name(SuiteId), name.name(FixtureSha256), name.name(SelectedCaseIds),
                          name.name(MaxExpectedCost), name.name(MaxConcurrency), name.name(Results)}
            && f[name.name(SchemaVersion)] == Str(run.schemaVersion) && f[name.name(SuiteId)] == Str(run.suiteId)
            && f[name.name(FixtureSha256)] == Str(run.fixtureSha256)
            && f[name.name(SelectedCaseIds)] == Arr(Texts(run.selectedCaseIds))
            && f[name.name(MaxExpectedCost)] == run.maxExpectedCost && f[name.name(MaxConcurrency)] == run.maxConcurrency
            && f[name.name(Results)] == Arr(EncodeResults(run.results, name))
  {
    RunFields(Str(run.schemaVersion), Str(run.suiteId), Str(run.fixtureSha256), Arr(Texts(run.selectedCaseIds)),
              run.maxExpectedCost, run.maxConcurrency, Arr(EncodeResults(run.results, name)), name);
  }

  lemma ObservationOfParts(o: Observation, env: Env)
    requires ReportEnv(env) && ValidatedObservation(o, env) == Some(o)
    ensures ObservationOf(Str(o.boundary), Obj(o.effects), Arr(Texts(o.groundTruthIds)), Arr(Texts(o.sources)), o.cost, env)
            == Some(o)
  {
    ValidatedIsText(o, env);
    TextListDecodes(o.groundTruthIds, env);
    TextListDecodes(o.sources, env);
    CheckedParts(o, env);
  }

  // With every part as it should be, only the validation itself remains.
  lemma CheckedParts(o: Observation, env: Env)
    requires Text(o.boundary, env) && o.effects.Keys == env.fields && Amount(o.cost)
    requires forall k :: k in o.effects ==> Count(o.effects[k])
    requires RequireDistinctTexts(Arr(Texts(o.groundTruthIds)), env) == Some(o.groundTruthIds)
    requires RequireDistinctTexts(Arr(Texts(o.sources)), env) == Some(o.sources)
    ensures ObservationOf(Str(o.boundary), Obj(o.effects), Arr(Texts(o.groundTruthIds)), Arr(Texts(o.sources)), o.cost, env)
            == ValidatedObservation(o, env)
  {
    assert RequireText(Str(o.boundary), env) == Some(o.boundary);
  }

  lemma ObservationRoundTrip(o: Observation, name: Naming, env: Env)
    requires ReportEnv(env) && Invertible(name) && ValidatedObservation(o, env) == Some(o)
    ensures DecodeObservation(EncodeObservation(o, name), name, env) == Some(o)
  {
    ObservationFields(o, name);
    ObservationOfParts(o, env);
  }

  lemma ResultOfParts(r: CaseResult, observation: Json, name: Naming, env: Env)
    requires ReportEnv(env) && ResultOk(r, env) && DecodeObservation(observation, name, env) == Some(r.observation)
    ensures ResultOf(Str(r.caseId), Int(r.version), Str(r.sha256), observation, Bool(r.reused), name, env) == Some(r)
  {
  }

  lemma ResultRoundTrip(r: CaseResult, name: Naming, env: Env)
    requires ReportEnv(env) && Invertible(name) && ResultOk(r, env)
    ensures DecodeResult(EncodeResult(r, name), name, env) == Some(r)
  {
    EncodedResult(r, name);
    ObservationRoundTrip(r.observation, name, env);
    ResultOfParts(r, EncodeObservation(r.observation, name), name, env);
  }

  lemma ResultsRoundTrip(results: seq<CaseResult>, name: Naming, env: Env)
    requires ReportEnv(env) && Invertible(name) && forall i :: 0 <= i < |results| ==> ResultOk(results[i], env)
    ensures DecodeResults(EncodeResults(results, name), name, env) == Some(results)
  {
    var (items, decode) := (EncodeResults(results, name), ResultDecoder(name, env));
    forall i | 0 <= i < |items| ensures decode(items[i]) == Some(results[i]) {
      ResultRoundTrip(results[i], name, env);
    }
    DecodesEach(items, results, decode);
  }

  lemma RunOfParts(run: Run, results: seq<Json>, name: Naming, env: Env)
    requires ReportEnv(env) && RunOk(run, env) && DecodeResults(results, name, env) == Some(run.results)
    ensures RunOf(Str(run.schemaVersion), Str(run.suiteId), Str(run.fixtureSha256), Arr(Texts(run.selectedCaseIds)),
                  run.maxExpectedCost, run.maxConcurrency, Arr(results), name, env) == Some(run)
  {
    TextListDecodes(run.selectedCaseIds, env);
  }

  lemma ReportRoundTrip(run: Run, name: Naming, env: Env)
    requires ReportEnv(env) && Invertible(name) && RunOk(run, env)
    ensures Decode(Encode(run, name), name, env) == Some(run)
  {
    ResultsRoundTrip(run.results, name, env);
    RunOfParts(run, EncodeResults(run.results, name), name, env);
    DecodeOfEncoded(run, name, env);
  }

  lemma DecodeOfEncoded(run: Run, name: Naming, env: Env)
    requires Invertible(name)
    ensures Decode(Encode(run, name), name, env)
            == RunOf(Str(run.schemaVersion), Str(run.suiteId), Str(run.fixtureSha256), Arr(Texts(run.selectedCaseIds)),
                     run.maxExpectedCost, run.maxConcurrency, Arr(EncodeResults(run.results, name)), name, env)
  {
    EncodedRun(run, name);
  }

  // What the suite loader guarantees.
  ghost predicate Loaded(suite: Suite, env: Env) {
    && Text(suite.suiteId, env) && DistinctIds(suite.cases)
    && forall c :: c in suite.cases ==> Text(c.id, env) && c.version >= 1 && Hex(env.digest(c), 64)
  }

  // Whatever report was resumed from, the results taken over are in order.
  lemma {:induction false} ResumedResultsAreOk(results: seq<CaseResult>, selected: seq<Case>, env: Env, id: string)
    requires ReportEnv(env) && ResumeFrom(results, selected, env).Ok? && id in ResumeFrom(results, selected, env).value
    requires forall c :: c in selected ==> Text(c.id, env) && c.version >= 1 && Hex(env.digest(c), 64)
    ensures ResumeFrom(results, selected, env).value[id].caseId == id && ResultOk(ResumeFrom(results, selected, env).value[id], env)
  {
    var n := |results| - 1;
    var rest := ResumeFrom(results[..n], selected, env).value;
    if id in rest && ResumeFrom(results, selected, env).value[id] == rest[id] {
      ResumedResultsAreOk(results[..n], selected, env, id);
    } else {
      var c := FindCase(selected, results[n].caseId).value;
      FindCaseIsMember(selected, results[n].caseId);
      ValidationIsIdempotent(results[n].observation, env);
    }
  }

  lemma {:induction false} FindCaseIsMember(cases: seq<Case>, id: string)
    requires FindCase(cases, id).Some?
    ensures FindCase(cases, id).value in cases && FindCase(cases, id).value.id == id
  {
    var n := |cases| - 1;
    if cases[n].id != id {
      FindCaseIsMember(cases[..n], id);
      assert cases == cases[..n] + [cases[n]];
    }
  }

  lemma ProducedResultIsOk(suite: Suite, fixture: string, ids: set<string>, executor: Executor, limits: Limits,
                           from: Option<Run>, env: Env, run: Run, i: nat)
    requires ReportEnv(env) && Loaded(suite, env)
    requires Produces(suite, fixture, ids, executor, limits, from, env, run) && i < |run.results|
    ensures run.results[i].caseId == Select(suite.cases, ids)[i].id && ResultOk(run.results[i], env)
  {
    var selected := Select(suite.cases, ids);
    forall c | c in selected ensures Text(c.id, env) && c.version >= 1 && Hex(env.digest(c), 64) {
      SelectMembers(suite.cases, ids, c);
    }
    if from.Some? && selected[i].id in Resumed(from, suite, fixture, selected, env).value {
      ResumedResultsAreOk(from.value.results, selected, env, selected[i].id);
    } else {
      OutcomeIsValidated(selected[i], executor, env);
    }
  }

  // Every run produced from a loaded suite, resumed or not, is read back from
  // its report exactly as it was.
  lemma ProducedRunsRoundTrip(suite: Suite, fixture: string, ids: set<string>, executor: Executor, limits: Limits,
                              from: Option<Run>, env: Env, run: Run, name: Naming)
    requires ReportEnv(env) && Invertible(name) && Loaded(suite, env) && Hex(fixture, 64)
    requires Produces(suite, fixture, ids, executor, limits, from, env, run)
    ensures Decode(Encode(run, name), name, env) == Some(run)
  {
    var selected := Select(suite.cases, ids);
    SelectDistinct(suite.cases, ids);
    forall i | 0 <= i < |selected|
      ensures Text(selected[i].id, env) && run.results[i].caseId == selected[i].id && ResultOk(run.results[i], env)
    {
      SelectMembers(suite.cases, ids, selected[i]);
      ProducedResultIsOk(suite, fixture, ids, executor, limits, from, env, run, i);
    }
    ReportRoundTrip(run, name, env);
  }

  // ---- Whatever is decoded survives the round trip as well ----

  lemma DecodedTexts(items: seq<Json>, env: Env)
    requires ValidEnv(env) && RequireTexts(items, env).Some?
    ensures forall i :: 0 <= i < |RequireTexts(items, env).value| ==> Text(RequireTexts(items, env).value[i], env)
  {
    DecodedEach(items, TextDecoder(env));
    forall i | 0 <= i < |items| ensures Text(RequireTexts(items, env).value[i], env) {
      assert TextDecoder(env)(items[i]) == RequireText(items[i], env);
    }
  }

  lemma ObservationOfIsValid(boundary: Json, effects: Json, ids: Json, sources: Json, cost: Json, env: Env)
    requires ValidEnv(env) && ObservationOf(boundary, effects, ids, sources, cost, env).Some?
    ensures var o := ObservationOf(boundary, effects, ids, sources, cost, env).value; ValidatedObservation(o, env) == Some(o)
  {
    ValidationIsIdempotent(
      Observation(RequireText(boundary, env).value, effects.fields, RequireDistinctTexts(ids, env).value,
                  RequireDistinctTexts(sources, env).value, cost), env);
  }

  lemma DecodedObservation(j: Json, name: Naming, env: Env)
    requires ValidEnv(env) && DecodeObservation(j, name, env).Some?
    ensures var o := DecodeObservation(j, name, env).value; ValidatedObservation(o, env) == Some(o)
  {
    var f := j.fields;
    ObservationOfIsValid(f[name.name(Boundary)], f[name.name(SideEffects)], f[name.name(GroundTruthIds)],
                         f[name.name(SourceReferences)], f[name.name(CostField)], env);
  }

  lemma DecodedResult(j: Json, name: Naming, env: Env)
    requires ReportEnv(env) && DecodeResult(j, name, env).Some?
    ensures ResultOk(DecodeResult(j, name, env).value, env)
  {
    DecodedObservation(j.fields[name.name(ObservationField)], name, env);
  }

  lemma DecodedResults(items: seq<Json>, name: Naming, env: Env)
    requires ReportEnv(env) && DecodeResults(items, name, env).Some?
    ensures forall i :: 0 <= i < |DecodeResults(items, name, env).value| ==> ResultOk(DecodeResults(items, name, env).value[i], env)
  {
    var (decode, results) := (ResultDecoder(name, env), DecodeResults(items, name, env).value);
    DecodedEach(items, decode);
    forall i | 0 <= i < |items| ensures ResultOk(results[i], env) {
      assert decode(items[i]) == DecodeResult(items[i], name, env);
      DecodedResult(items[i], name, env);
    }
  }

  // Reading a report is idempotent: writing out what was read and reading it
  // again gives the same run.
  lemma DecodedRunsRoundTrip(j: Json, name: Naming, env: Env)
    requires ReportEnv(env) && Invertible(name) && Decode(j, name, env).Some?
    ensures Decode(Encode(Decode(j, name, env).value, name), name, env) == Decode(j, name, env)
  {
    var f := j.fields;
    DecodedTexts(f[name.name(SelectedCaseIds)].items, env);
    DecodedResults(f[name.name(Results)].items, name, env);
    ReportRoundTrip(Decode(j, name, env).value, name, env);
  }
}
