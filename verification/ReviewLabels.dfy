// Human-review labels: what a valid label of each subject kind is, which of its
// fields are material, and what agreement on those fields implies.
module ReviewLabels {
  import opened Basics
  import opened JsonTree
  import opened JsonPointer

  datatype SubjectKind = Finding | TestCase | FailureAnalysis

  const LABEL_SCHEMA_VERSION := "evaluation-review-label/v1"
  const ASSESSMENTS := {"meets", "partially_meets", "does_not_meet"}
  const FINDING_CRITERIA := {"material_issue", "category", "source", "explanation"}
  const TEST_CASE_DIMENSIONS :=
    {"objective", "preconditions_and_input", "procedure_or_request", "expected_result", "evidence_and_traceability"}
  const FAILURE_CRITERIA :=
    {"observations_match_evidence", "hypotheses_clearly_labeled", "likely_cause_plausible",
     "alternatives_considered_when_material", "recommended_next_checks_actionable", "no_unsupported_root_cause_claim"}

  datatype LabelError =
    | WrongSchemaVersion | WrongSubjectKind | WrongFields | BadAssessments | BadScore | ScoreNotExpected
    | NotBoolean | BadEvidence | BlankText

  type Fields = map<string, Json>

  function KindName(kind: SubjectKind): string {
    match kind
    case Finding => "finding"
    case TestCase => "test_case"
    case FailureAnalysis => "failure_analysis"
  }

  function FindingScore(criteria: map<string, string>, unsupportedClaim: bool): int {
    if unsupportedClaim || "does_not_meet" in criteria.Values then 0
    else if forall k | k in criteria :: criteria[k] == "meets" then 2
    else 1
  }

  function Points(dimensions: map<string, int>, key: string): int {
    if key in dimensions then dimensions[key] else 0
  }

  function TotalScore(dimensions: map<string, int>): int {
    Points(dimensions, "objective") + Points(dimensions, "preconditions_and_input")
    + Points(dimensions, "procedure_or_request") + Points(dimensions, "expected_result")
    + Points(dimensions, "evidence_and_traceability")
  }

  function HumanAccepted(dimensions: map<string, int>, policyViolation: bool, duplicate: bool): bool {
    && (forall k | k in dimensions :: dimensions[k] > 0)
    && TotalScore(dimensions) >= 8 && !policyViolation && !duplicate
  }

  // A validated, normalized label; `Fields` is the mapping that is stored.
  datatype ReviewLabel =
    | FindingLabel(score: int, criteria: map<string, string>, unsupportedClaim: bool,
                   evidence: seq<string>, rationale: string)
    | TestCaseLabel(dimensions: map<string, int>, policyViolation: bool, duplicate: bool,
                    totalScore: int, humanAccepted: bool, evidence: seq<string>, rationale: string)
    | FailureLabel(criteria: map<string, string>, evidence: seq<string>, rationale: string)
  {
    function Kind(): SubjectKind {
      match this
      case FindingLabel(_, _, _, _, _) => Finding
      case TestCaseLabel(_, _, _, _, _, _, _) => TestCase
      case FailureLabel(_, _, _) => FailureAnalysis
    }

    // Derived fields are functions of the judgments they are derived from.
    predicate Consistent() {
      match this
      case FindingLabel(score, criteria, unsupportedClaim, _, _) =>
        criteria.Keys == FINDING_CRITERIA && score == FindingScore(criteria, unsupportedClaim)
      case TestCaseLabel(dimensions, policyViolation, duplicate, totalScore, humanAccepted, _, _) =>
        && dimensions.Keys == TEST_CASE_DIMENSIONS
        && totalScore == TotalScore(dimensions)
        && humanAccepted == HumanAccepted(dimensions, policyViolation, duplicate)
      case FailureLabel(criteria, _, _) => criteria.Keys == FAILURE_CRITERIA
    }

    function AsFields(): Fields {
      match this
      case FindingLabel(score, criteria, unsupportedClaim, evidence, rationale) => map[
        "schema_version" := Str(LABEL_SCHEMA_VERSION),
        "subject_kind" := Str("finding"),
        "score" := Int(score),
        "criteria" := TextMap(criteria),
        "unsupported_claim_present" := Bool(unsupportedClaim),
        "evidence_locators" := TextList(evidence),
        "rationale" := Str(rationale)]
      case TestCaseLabel(dimensions, policyViolation, duplicate, totalScore, humanAccepted, evidence, rationale) => map[
        "schema_version" := Str(LABEL_SCHEMA_VERSION),
        "subject_kind" := Str("test_case"),
        "dimensions" := IntMap(dimensions),
        "execution_policy_violation" := Bool(policyViolation),
        "material_duplicate" := Bool(duplicate),
        "total_score" := Int(totalScore),
        "human_accepted" := Bool(humanAccepted),
        "evidence_locators" := TextList(evidence),
        "rationale" := Str(rationale)]
      case FailureLabel(criteria, evidence, rationale) => map[
        "schema_version" := Str(LABEL_SCHEMA_VERSION),
        "subject_kind" := Str("failure_analysis"),
        "criteria" := TextMap(criteria),
        "evidence_locators" := TextList(evidence),
        "rationale" := Str(rationale)]
    }
  }

  function TextMap(m: map<string, string>): Json {
    Obj(map k | k in m :: Str(m[k]))
  }

  function IntMap(m: map<string, int>): Json {
    Obj(map k | k in m :: Int(m[k]))
  }

  function TextList(a: seq<string>): Json {
    Arr(seq(|a|, i requires 0 <= i < |a| => Str(a[i])))
  }

  // ---- Validation ----

  function RequiredText(value: Json): Result<string, LabelError> {
    if value.Str? && !Blank(value.s) then Ok(Strip(value.s)) else Err(BlankText)
  }

  predicate IsScore(value: Json) {
    value.Int? && 0 <= value.i <= 2
  }

  function AssessmentMapping(value: Json, keys: set<string>): Result<map<string, string>, LabelError> {
    if value.Obj? && value.fields.Keys == keys
       && forall k | k in value.fields :: value.fields[k].Str? && Strip(value.fields[k].s) in ASSESSMENTS
    then Ok(map k | k in value.fields :: Strip(value.fields[k].s))
    else Err(BadAssessments)
  }

  function ScoreMapping(value: Json, keys: set<string>): Result<map<string, int>, LabelError> {
    if value.Obj? && value.fields.Keys == keys && forall k | k in value.fields :: IsScore(value.fields[k])
    then Ok(map k | k in value.fields :: value.fields[k].i)
    else Err(BadScore)
  }

  function EvidenceLocators(value: Json): Result<seq<string>, LabelError> {
    if value.Arr? && value.items != [] && forall i :: 0 <= i < |value.items| ==> RequiredText(value.items[i]).Ok?
    then Ok(seq(|value.items|, i requires 0 <= i < |value.items| => Strip(value.items[i].s)))
    else Err(BadEvidence)
  }

  const FINDING_FIELDS :=
    {"schema_version", "subject_kind", "score", "criteria", "unsupported_claim_present", "evidence_locators", "rationale"}
  const TEST_CASE_FIELDS :=
    {"schema_version", "subject_kind", "dimensions", "execution_policy_violation", "material_duplicate",
     "evidence_locators", "rationale"}
  const FAILURE_FIELDS :=
    {"schema_version", "subject_kind", "criteria", "evidence_locators", "rationale"}

  function ValidateFinding(payload: Fields): (r: Result<ReviewLabel, LabelError>)
    ensures r.Ok? ==> r.value.FindingLabel? && r.value.Consistent()
  {
    if payload.Keys != FINDING_FIELDS then Err(WrongFields)
    else
      var criteria := AssessmentMapping(payload["criteria"], FINDING_CRITERIA);
      var (claim, score) := (payload["unsupported_claim_present"], payload["score"]);
      var (evidence, rationale) := (EvidenceLocators(payload["evidence_locators"]), RequiredText(payload["rationale"]));
      if criteria.Err? then Err(criteria.error)
      else if !claim.Bool? then Err(NotBoolean)
      else if !IsScore(score) then Err(BadScore)
      else if score.i != FindingScore(criteria.value, claim.b) then Err(ScoreNotExpected)
      else if evidence.Err? then Err(evidence.error)
      else if rationale.Err? then Err(rationale.error)
      else Ok(FindingLabel(score.i, criteria.value, claim.b, evidence.value, rationale.value))
  }

  function ValidateTestCase(payload: Fields): (r: Result<ReviewLabel, LabelError>)
    ensures r.Ok? ==> r.value.TestCaseLabel? && r.value.Consistent()
  {
    if payload.Keys != TEST_CASE_FIELDS then Err(WrongFields)
    else
      var dimensions := ScoreMapping(payload["dimensions"], TEST_CASE_DIMENSIONS);
      var (policy, duplicate) := (payload["execution_policy_violation"], payload["material_duplicate"]);
      var (evidence, rationale) := (EvidenceLocators(payload["evidence_locators"]), RequiredText(payload["rationale"]));
      if dimensions.Err? then Err(dimensions.error)
      else if !policy.Bool? || !duplicate.Bool? then Err(NotBoolean)
      else if evidence.Err? then Err(evidence.error)
      else if rationale.Err? then Err(rationale.error)
      else
        var d := dimensions.value;
        Ok(TestCaseLabel(d, policy.b, duplicate.b, TotalScore(d), HumanAccepted(d, policy.b, duplicate.b),
                         evidence.value, rationale.value))
  }

  function ValidateFailureAnalysis(payload: Fields): (r: Result<ReviewLabel, LabelError>)
    ensures r.Ok? ==> r.value.FailureLabel? && r.value.Consistent()
  {
    if payload.Keys != FAILURE_FIELDS then Err(WrongFields)
    else
      var criteria := AssessmentMapping(payload["criteria"], FAILURE_CRITERIA);
      var (evidence, rationale) := (EvidenceLocators(payload["evidence_locators"]), RequiredText(payload["rationale"]));
      if criteria.Err? then Err(criteria.error)
      else if evidence.Err? then Err(evidence.error)
      else if rationale.Err? then Err(rationale.error)
      else Ok(FailureLabel(criteria.value, evidence.value, rationale.value))
  }

  function Validate(kind: SubjectKind, labels: Fields): (r: Result<ReviewLabel, LabelError>)
    ensures r.Ok? ==> r.value.Kind() == kind && r.value.Consistent()
  {
    if "schema_version" !in labels || labels["schema_version"] != Str(LABEL_SCHEMA_VERSION) then Err(WrongSchemaVersion)
    else if "subject_kind" !in labels || labels["subject_kind"] != Str(KindName(kind)) then Err(WrongSubjectKind)
    else match kind
      case Finding => ValidateFinding(labels)
      case TestCase => ValidateTestCase(labels)
      case FailureAnalysis => ValidateFailureAnalysis(labels)
  }

  // ---- Material fields and agreement ----

  function Path1(name: string): string {
    "/" + name
  }

  function Path2(name: string, key: string): string {
    "/" + name + "/" + key
  }

  // The fields whose differences need adjudication.
  function MaterialPaths(kind: SubjectKind): set<string> {
    match kind
    case Finding =>
      {Path1("score"), Path1("unsupported_claim_present")} + set k | k in FINDING_CRITERIA :: Path2("criteria", k)
    case TestCase =>
      {Path1("execution_policy_violation"), Path1("material_duplicate")}
      + set k | k in TEST_CASE_DIMENSIONS :: Path2("dimensions", k)
    case FailureAnalysis => set k | k in FAILURE_CRITERIA :: Path2("criteria", k)
  }

  function Entry(flat: map<string, Json>, path: string): Option<Json> {
    if path in flat then Some(flat[path]) else None
  }

  // Values compare with Python's equality; a missing value equals nothing.
  predicate SameEntry(a: Option<Json>, b: Option<Json>) {
    a.Some? && b.Some? && PyEq(a.value, b.value)
  }

  function DifferingEntries(f: map<string, Json>, g: map<string, Json>): set<string> {
    set path | path in f.Keys + g.Keys && !SameEntry(Entry(f, path), Entry(g, path))
  }

  ghost function DifferingPaths(p: Fields, q: Fields): set<string> {
    DifferingEntries(Flatten(Obj(p)), Flatten(Obj(q)))
  }

  predicate Plain(name: string) {
    '~' !in name && '/' !in name
  }

  lemma EscapePlain(name: string)
    requires Plain(name)
    ensures Escape(name) == name
  {
    ReplaceAbsent(name, "~", "~0");
    ReplaceAbsent(name, "/", "~1");
  }

  lemma FieldEntry(m: Fields, name: string)
    requires Plain(name) && name in m && IsLeaf(m[name])
    ensures Entry(Flatten(Obj(m)), Path1(name)) == Some(m[name])
  {
    EscapePlain(name);
    var ts := [Key(name)];
    assert ts[1..] == [];
    assert Render(ts) == "/" + name + "";
    LeafPathsAreTheLeaves(Obj(m), ts);
    FlattenIsLossless(Obj(m), Path1(name), ts);
  }

  lemma NestedEntry(m: Fields, name: string, key: string)
    requires Plain(name) && Plain(key) && name in m && m[name].Obj?
    requires key in m[name].fields && IsLeaf(m[name].fields[key])
    ensures Entry(Flatten(Obj(m)), Path2(name, key)) == Some(m[name].fields[key])
  {
    EscapePlain(name);
    EscapePlain(key);
    var ts := [Key(name), Key(key)];
    assert ts[1..] == [Key(key)] && [Key(key)][1..] == [];
    assert Render([Key(key)]) == "/" + key + "";
    assert Render(ts) == "/" + name + ("/" + key + "");
    assert Render(ts) == Path2(name, key);
    var v := Obj(m);
    assert At(v, ts) == At(m[name], [Key(key)]) == At(m[name].fields[key], []);
    LeafPathsAreTheLeaves(v, ts);
    FlattenIsLossless(v, Path2(name, key), ts);
  }

  // Two scalars of one type are equal to Python only if they are equal.
  lemma EqualEntries(f: map<string, Json>, g: map<string, Json>, path: string)
    requires path in f && path in g && path !in DifferingEntries(f, g)
    ensures PyEq(f[path], g[path])
  {
  }

  lemma PyEqOfLeaves(a: Json, b: Json)
    requires PyEq(a, b)
    requires (a.Bool? && b.Bool?) || (a.Int? && b.Int?) || (a.Str? && b.Str?)
    ensures a == b
  {
  }

  lemma SameField(p: Fields, q: Fields, name: string)
    requires Plain(name) && name in p && name in q
    requires (p[name].Bool? && q[name].Bool?) || (p[name].Int? && q[name].Int?)
    requires Path1(name) !in DifferingPaths(p, q)
    ensures p[name] == q[name]
  {
    FieldEntry(p, name);
    FieldEntry(q, name);
    EqualEntries(Flatten(Obj(p)), Flatten(Obj(q)), Path1(name));
    PyEqOfLeaves(p[name], q[name]);
  }

  lemma SameNested(p: Fields, q: Fields, name: string, key: string)
    requires Plain(name) && Plain(key) && name in p && name in q && p[name].Obj? && q[name].Obj?
    requires key in p[name].fields && key in q[name].fields
    requires var (a, b) := (p[name].fields[key], q[name].fields[key]);
             (a.Int? && b.Int?) || (a.Str? && b.Str?)
    requires Path2(name, key) !in DifferingPaths(p, q)
    ensures p[name].fields[key] == q[name].fields[key]
  {
    NestedEntry(p, name, key);
    NestedEntry(q, name, key);
    EqualEntries(Flatten(Obj(p)), Flatten(Obj(q)), Path2(name, key));
    PyEqOfLeaves(p[name].fields[key], q[name].fields[key]);
  }

  // Agreement on the criteria of a kind, one key at a time.
  lemma SameCriteria(p: Fields, q: Fields, name: string, a: map<string, string>, b: map<string, string>)
    requires Plain(name) && name in p && name in q && p[name] == TextMap(a) && q[name] == TextMap(b)
    requires a.Keys == b.Keys
    requires forall key :: key in a ==> Plain(key) && Path2(name, key) !in DifferingPaths(p, q)
    ensures a == b
  {
    forall key | key in a ensures a[key] == b[key] {
      SameNested(p, q, name, key);
      assert p[name].fields[key] == Str(a[key]) && q[name].fields[key] == Str(b[key]);
    }
  }

  lemma SameDimensions(p: Fields, q: Fields, name: string, a: map<string, int>, b: map<string, int>)
    requires Plain(name) && name in p && name in q && p[name] == IntMap(a) && q[name] == IntMap(b)
    requires a.Keys == b.Keys
    requires forall key :: key in a ==> Plain(key) && Path2(name, key) !in DifferingPaths(p, q)
    ensures a == b
  {
    forall key | key in a ensures a[key] == b[key] {
      SameNested(p, q, name, key);
      assert p[name].fields[key] == Int(a[key]) && q[name].fields[key] == Int(b[key]);
    }
  }

  lemma PlainNames()
    ensures Plain("criteria") && Plain("dimensions")
  {
  }

  lemma PlainFlags()
    ensures Plain("unsupported_claim_present") && Plain("execution_policy_violation") && Plain("material_duplicate")
  {
    assert Plain("unsupported_claim_present");
    assert Plain("execution_policy_violation");
  }

  lemma PlainFindingCriteria()
    ensures forall k :: k in FINDING_CRITERIA ==> Plain(k)
  {
    assert Plain("material_issue");
  }

  lemma PlainDimensions()
    ensures forall k :: k in TEST_CASE_DIMENSIONS ==> Plain(k)
  {
    assert Plain("preconditions_and_input");
    assert Plain("procedure_or_request");
    assert Plain("evidence_and_traceability");
  }

  lemma PlainObservationCriteria()
    ensures Plain("observations_match_evidence") && Plain("hypotheses_clearly_labeled")
    ensures Plain("likely_cause_plausible")
  {
    assert Plain("observations_match_evidence");
    assert Plain("hypotheses_clearly_labeled");
  }

  lemma PlainAlternatives()
    ensures Plain("alternatives_considered_when_material")
  {
  }

  lemma PlainNextChecks()
    ensures Plain("recommended_next_checks_actionable") && Plain("no_unsupported_root_cause_claim")
  {
    assert Plain("recommended_next_checks_actionable");
  }

  lemma PlainFailureCriteria()
    ensures forall k :: k in FAILURE_CRITERIA ==> Plain(k)
  {
    PlainObservationCriteria();
    PlainAlternatives();
    PlainNextChecks();
  }

  lemma FindingEntries(a: ReviewLabel)
    requires a.FindingLabel?
    ensures "criteria" in a.AsFields() && a.AsFields()["criteria"] == TextMap(a.criteria)
    ensures "unsupported_claim_present" in a.AsFields()
            && a.AsFields()["unsupported_claim_present"] == Bool(a.unsupportedClaim)
  {
  }

  lemma TestCaseEntries(a: ReviewLabel)
    requires a.TestCaseLabel?
    ensures "dimensions" in a.AsFields() && a.AsFields()["dimensions"] == IntMap(a.dimensions)
    ensures "execution_policy_violation" in a.AsFields()
            && a.AsFields()["execution_policy_violation"] == Bool(a.policyViolation)
    ensures "material_duplicate" in a.AsFields() && a.AsFields()["material_duplicate"] == Bool(a.duplicate)
  {
  }

  lemma FailureEntries(a: ReviewLabel)
    requires a.FailureLabel?
    ensures "criteria" in a.AsFields() && a.AsFields()["criteria"] == TextMap(a.criteria)
  {
  }

  lemma AgreeOnCriteria(p: Fields, q: Fields, name: string, keys: set<string>, a: map<string, string>, b: map<string, string>)
    requires Plain(name) && (forall k :: k in keys ==> Plain(k)) && a.Keys == keys && b.Keys == keys
    requires name in p && name in q && p[name] == TextMap(a) && q[name] == TextMap(b)
    requires DifferingPaths(p, q) !! set k | k in keys :: Path2(name, k)
    ensures a == b
  {
    forall key | key in a ensures Path2(name, key) !in DifferingPaths(p, q) {
      assert Path2(name, key) in set k | k in keys :: Path2(name, k);
    }
    SameCriteria(p, q, name, a, b);
  }

  lemma AgreeOnDimensions(p: Fields, q: Fields, name: string, keys: set<string>, a: map<string, int>, b: map<string, int>)
    requires Plain(name) && (forall k :: k in keys ==> Plain(k)) && a.Keys == keys && b.Keys == keys
    requires name in p && name in q && p[name] == IntMap(a) && q[name] == IntMap(b)
    requires DifferingPaths(p, q) !! set k | k in keys :: Path2(name, k)
    ensures a == b
  {
    forall key | key in a ensures Path2(name, key) !in DifferingPaths(p, q) {
      assert Path2(name, key) in set k | k in keys :: Path2(name, k);
    }
    SameDimensions(p, q, name, a, b);
  }

  // Everything but evidence and rationale.
  ghost predicate SameJudgment(a: ReviewLabel, b: ReviewLabel) {
    match (a, b)
    case (FindingLabel(s, c, u, _, _), FindingLabel(s', c', u', _, _)) => s == s' && c == c' && u == u'
    case (TestCaseLabel(d, v, m, t, h, _, _), TestCaseLabel(d', v', m', t', h', _, _)) =>
      d == d' && v == v' && m == m' && t == t' && h == h'
    case (FailureLabel(c, _, _), FailureLabel(c', _, _)) => c == c'
    case _ => false
  }

  lemma FindingsAgree(a: ReviewLabel, b: ReviewLabel)
    requires a.FindingLabel? && b.FindingLabel? && a.Consistent() && b.Consistent()
    requires DifferingPaths(a.AsFields(), b.AsFields()) !! MaterialPaths(Finding)
    ensures SameJudgment(a, b)
  {
    PlainNames();
    PlainFlags();
    PlainFindingCriteria();
    FindingEntries(a);
    FindingEntries(b);
    AgreeOnCriteria(a.AsFields(), b.AsFields(), "criteria", FINDING_CRITERIA, a.criteria, b.criteria);
    SameField(a.AsFields(), b.AsFields(), "unsupported_claim_present");
  }

  lemma TestCasesAgree(a: ReviewLabel, b: ReviewLabel)
    requires a.TestCaseLabel? && b.TestCaseLabel? && a.Consistent() && b.Consistent()
    requires DifferingPaths(a.AsFields(), b.AsFields()) !! MaterialPaths(TestCase)
    ensures SameJudgment(a, b)
  {
    PlainNames();
    PlainFlags();
    PlainDimensions();
    TestCaseEntries(a);
    TestCaseEntries(b);
    AgreeOnDimensions(a.AsFields(), b.AsFields(), "dimensions", TEST_CASE_DIMENSIONS, a.dimensions, b.dimensions);
    SameField(a.AsFields(), b.AsFields(), "execution_policy_violation");
    SameField(a.AsFields(), b.AsFields(), "material_duplicate");
  }

  lemma FailureAnalysesAgree(a: ReviewLabel, b: ReviewLabel)
    requires a.FailureLabel? && b.FailureLabel? && a.Consistent() && b.Consistent()
    requires DifferingPaths(a.AsFields(), b.AsFields()) !! MaterialPaths(FailureAnalysis)
    ensures SameJudgment(a, b)
  {
    PlainNames();
    PlainFailureCriteria();
    FailureEntries(a);
    FailureEntries(b);
    AgreeOnCriteria(a.AsFields(), b.AsFields(), "criteria", FAILURE_CRITERIA, a.criteria, b.criteria);
  }

  // The converse: labels of equal judgment have no material difference.
  lemma SameNestedEntries(p: Fields, q: Fields, name: string, keys: set<string>)
    requires Plain(name) && (forall k :: k in keys ==> Plain(k))
    requires name in p && name in q && p[name] == q[name] && p[name].Obj?
    requires forall k :: k in keys ==> k in p[name].fields && IsLeaf(p[name].fields[k])
    ensures DifferingPaths(p, q) !! set k | k in keys :: Path2(name, k)
  {
    forall path | path in (set k | k in keys :: Path2(name, k)) ensures path !in DifferingPaths(p, q) {
      var k :| k in keys && path == Path2(name, k);
      NestedEntry(p, name, k);
      NestedEntry(q, name, k);
      PyEqReflexive(p[name].fields[k]);
    }
  }

  lemma SameCriteriaEntries(p: Fields, q: Fields, name: string, keys: set<string>, c: map<string, string>)
    requires Plain(name) && (forall k :: k in keys ==> Plain(k)) && c.Keys == keys
    requires name in p && name in q && p[name] == TextMap(c) && q[name] == TextMap(c)
    ensures DifferingPaths(p, q) !! set k | k in keys :: Path2(name, k)
  {
    SameNestedEntries(p, q, name, keys);
  }

  lemma SameDimensionEntries(p: Fields, q: Fields, name: string, keys: set<string>, d: map<string, int>)
    requires Plain(name) && (forall k :: k in keys ==> Plain(k)) && d.Keys == keys
    requires name in p && name in q && p[name] == IntMap(d) && q[name] == IntMap(d)
    ensures DifferingPaths(p, q) !! set k | k in keys :: Path2(name, k)
  {
    SameNestedEntries(p, q, name, keys);
  }

  lemma SameFieldEntry(p: Fields, q: Fields, name: string)
    requires Plain(name) && name in p && name in q && p[name] == q[name] && IsLeaf(p[name])
    ensures Path1(name) !in DifferingPaths(p, q)
  {
    FieldEntry(p, name);
    FieldEntry(q, name);
    PyEqReflexive(p[name]);
  }

  lemma ScoreEntry(a: ReviewLabel)
    requires a.FindingLabel?
    ensures "score" in a.AsFields() && a.AsFields()["score"] == Int(a.score) && Plain("score")
  {
  }

  lemma SameFindings(a: ReviewLabel, b: ReviewLabel)
    requires a.FindingLabel? && a.Consistent() && SameJudgment(a, b)
    ensures DifferingPaths(a.AsFields(), b.AsFields()) !! MaterialPaths(Finding)
  {
    PlainNames();
    PlainFlags();
    PlainFindingCriteria();
    FindingEntries(a);
    FindingEntries(b);
    ScoreEntry(a);
    ScoreEntry(b);
    SameCriteriaEntries(a.AsFields(), b.AsFields(), "criteria", FINDING_CRITERIA, a.criteria);
    SameFieldEntry(a.AsFields(), b.AsFields(), "score");
    SameFieldEntry(a.AsFields(), b.AsFields(), "unsupported_claim_present");
  }

  lemma SameTestCases(a: ReviewLabel, b: ReviewLabel)
    requires a.TestCaseLabel? && a.Consistent() && SameJudgment(a, b)
    ensures DifferingPaths(a.AsFields(), b.AsFields()) !! MaterialPaths(TestCase)
  {
    PlainNames();
    PlainFlags();
    PlainDimensions();
    TestCaseEntries(a);
    TestCaseEntries(b);
    SameDimensionEntries(a.AsFields(), b.AsFields(), "dimensions", TEST_CASE_DIMENSIONS, a.dimensions);
    SameFieldEntry(a.AsFields(), b.AsFields(), "execution_policy_violation");
    SameFieldEntry(a.AsFields(), b.AsFields(), "material_duplicate");
  }

  lemma SameFailureAnalyses(a: ReviewLabel, b: ReviewLabel)
    requires a.FailureLabel? && a.Consistent() && SameJudgment(a, b)
    ensures DifferingPaths(a.AsFields(), b.AsFields()) !! MaterialPaths(FailureAnalysis)
  {
    PlainNames();
    PlainFailureCriteria();
    FailureEntries(a);
    FailureEntries(b);
    SameCriteriaEntries(a.AsFields(), b.AsFields(), "criteria", FAILURE_CRITERIA, a.criteria);
  }

  // Two labels of a kind have no material difference exactly when they agree
  // everywhere except in evidence and rationale.  That includes a test case's
  // total score and acceptance, which are not material fields themselves.
  lemma MaterialAgreementIsSameJudgment(a: ReviewLabel, b: ReviewLabel)
    requires a.Kind() == b.Kind() && a.Consistent() && b.Consistent()
    ensures DifferingPaths(a.AsFields(), b.AsFields()) !! MaterialPaths(a.Kind()) <==> SameJudgment(a, b)
  {
    if SameJudgment(a, b) {
      match a.Kind()
      case Finding => SameFindings(a, b);
      case TestCase => SameTestCases(a, b);
      case FailureAnalysis => SameFailureAnalyses(a, b);
    } else if DifferingPaths(a.AsFields(), b.AsFields()) !! MaterialPaths(a.Kind()) {
      match a.Kind()
      case Finding => FindingsAgree(a, b);
      case TestCase => TestCasesAgree(a, b);
      case FailureAnalysis => FailureAnalysesAgree(a, b);
    }
  }
}
