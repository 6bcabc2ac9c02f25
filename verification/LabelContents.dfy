// What a valid review label of each kind is and what becomes of it, written out
// with the criteria, scores and paths themselves.
module LabelContents {
  import opened Basics
  import opened JsonTree
  import opened ReviewLabels

  // ---- Derived judgments ----

  // Scores: 0 for an unsupported claim or a failed criterion, 2 when everything
  // is met, 1 otherwise.
  lemma FindingScoreExactly(criteria: map<string, string>, unsupportedClaim: bool)
    ensures FindingScore(criteria, unsupportedClaim) == 0
       <==> unsupportedClaim || exists k :: k in criteria && criteria[k] == "does_not_meet"
    ensures FindingScore(criteria, unsupportedClaim) == 2
       <==> !unsupportedClaim && forall k :: k in criteria ==> criteria[k] == "meets"
    ensures FindingScore(criteria, unsupportedClaim) in {0, 1, 2}
  {
    assert "meets"[0] != "does_not_meet"[0];
    if exists k :: k in criteria && criteria[k] == "does_not_meet" {
      var k :| k in criteria && criteria[k] == "does_not_meet";
      assert "does_not_meet" in criteria.Values;
    }
  }

  // A test case is accepted with every dimension scored, at least eight points
  // in all, no violation of the execution policy and no material duplicate.
  lemma TestCaseAcceptedExactly(d: map<string, int>, policyViolation: bool, duplicate: bool)
    requires d.Keys == {"objective", "preconditions_and_input", "procedure_or_request", "expected_result",
                        "evidence_and_traceability"}
    ensures TotalScore(d) == d["objective"] + d["preconditions_and_input"] + d["procedure_or_request"]
                             + d["expected_result"] + d["evidence_and_traceability"]
    ensures HumanAccepted(d, policyViolation, duplicate)
       <==> && d["objective"] > 0 && d["preconditions_and_input"] > 0 && d["procedure_or_request"] > 0
            && d["expected_result"] > 0 && d["evidence_and_traceability"] > 0
            && d["objective"] + d["preconditions_and_input"] + d["procedure_or_request"]
               + d["expected_result"] + d["evidence_and_traceability"] >= 8
            && !policyViolation && !duplicate
  {
  }

  // ---- Accepted labels ----

  predicate SomeText(value: Json) {
    value.Str? && exists i :: 0 <= i < |value.s| && !IsSpace(value.s[i])
  }

  // The value is a text with nothing around it that is this one without its
  // surrounding white space.
  predicate Reads(value: Json, text: string) {
    value.Str? && text == Strip(value.s)
  }

  predicate Assessed(value: Json, keys: set<string>) {
    && value.Obj? && value.fields.Keys == keys
    && forall k :: k in keys ==> Assessment(value.fields[k])
  }

  predicate Assessment(value: Json) {
    && value.Str?
    && (Strip(value.s) == "meets" || Strip(value.s) == "partially_meets" || Strip(value.s) == "does_not_meet")
  }

  predicate Scored(value: Json, keys: set<string>) {
    && value.Obj? && value.fields.Keys == keys
    && forall k :: k in keys ==> value.fields[k] in {Int(0), Int(1), Int(2)}
  }

  predicate Located(value: Json) {
    value.Arr? && |value.items| >= 1 && forall i :: 0 <= i < |value.items| ==> SomeText(value.items[i])
  }

  lemma BlankExactly(s: string)
    ensures !Blank(s) <==> exists i :: 0 <= i < |s| && !IsSpace(s[i])
  {
    StripKeepsText(s);
  }

  // Stripping takes away white space at the two ends and nothing else.
  lemma StripIsMiddle(s: string) returns (i: nat, j: nat)
    ensures i <= j <= |s| && Strip(s) == s[i..j]
    ensures forall k :: 0 <= k < i || j <= k < |s| ==> IsSpace(s[k])
  {
    i := LStripFrom(s);
    var rest := LStrip(s);
    var n := RStripTo(rest);
    j := i + n;
    assert rest[..n] == s[i..j];
    forall k | j <= k < |s| ensures IsSpace(s[k]) {
      assert s[k] == rest[k - i];
    }
  }

  lemma {:induction false} LStripFrom(s: string) returns (i: nat)
    ensures i <= |s| && LStrip(s) == s[i..] && forall k :: 0 <= k < i ==> IsSpace(s[k])
  {
    if s != "" && IsSpace(s[0]) {
      var n := LStripFrom(s[1..]);
      i := n + 1;
      forall k | 0 <= k < i ensures IsSpace(s[k]) {
        if k > 0 { assert s[k] == s[1..][k - 1]; }
      }
      assert s[1..][n..] == s[i..];
    } else {
      i := 0;
    }
  }

  lemma {:induction false} RStripTo(s: string) returns (n: nat)
    ensures n <= |s| && RStrip(s) == s[..n] && forall k :: n <= k < |s| ==> IsSpace(s[k])
  {
    if s != "" && IsSpace(s[|s| - 1]) {
      n := RStripTo(s[..|s| - 1]);
      assert s[..|s| - 1][..n] == s[..n];
    } else {
      n := |s|;
    }
  }

  lemma StripKeepsText(s: string)
    ensures Strip(s) == "" <==> forall k :: 0 <= k < |s| ==> IsSpace(s[k])
  {
    var i, j := StripIsMiddle(s);
    if i < j {
      assert Strip(s)[0] == s[i];
    }
  }

  lemma TextExactly(value: Json)
    ensures RequiredText(value).Ok? <==> SomeText(value)
    ensures SomeText(value) ==> RequiredText(value) == Ok(Strip(value.s))
  {
    if value.Str? { BlankExactly(value.s); }
  }

  lemma AssessmentExactly(value: Json)
    ensures Assessment(value) <==> value.Str? && Strip(value.s) in ASSESSMENTS
  {
  }

  lemma AssessmentsExactly(value: Json, keys: set<string>)
    ensures AssessmentMapping(value, keys).Ok? <==> Assessed(value, keys)
    ensures Assessed(value, keys) ==>
              var criteria := AssessmentMapping(value, keys).value;
              criteria.Keys == keys && forall k :: k in keys ==> Reads(value.fields[k], criteria[k])
  {
    if value.Obj? && value.fields.Keys == keys {
      forall k | k in keys
        ensures Assessment(value.fields[k]) <==> value.fields[k].Str? && Strip(value.fields[k].s) in ASSESSMENTS
      {
        AssessmentExactly(value.fields[k]);
      }
    }
  }

  lemma ScoresExactly(value: Json, keys: set<string>)
    ensures ScoreMapping(value, keys).Ok? <==> Scored(value, keys)
    ensures Scored(value, keys) ==>
              var scores := ScoreMapping(value, keys).value;
              scores.Keys == keys && forall k :: k in keys ==> value.fields[k] == Int(scores[k])
  {
    forall j: Json ensures IsScore(j) <==> j in {Int(0), Int(1), Int(2)} {
    }
  }

  lemma LocatorsExactly(value: Json)
    ensures EvidenceLocators(value).Ok? <==> Located(value)
    ensures Located(value) ==>
              var texts := EvidenceLocators(value).value;
              |texts| == |value.items| && forall i :: 0 <= i < |texts| ==> Reads(value.items[i], texts[i])
  {
    if value.Arr? {
      forall i | 0 <= i < |value.items| ensures RequiredText(value.items[i]).Ok? <==> SomeText(value.items[i]) {
        TextExactly(value.items[i]);
      }
    }
  }

  // What every kind of label shares.
  predicate Headed(labels: Fields, kind: string) {
    && "schema_version" in labels && labels["schema_version"] == Str("evaluation-review-label/v1")
    && "subject_kind" in labels && labels["subject_kind"] == Str(kind)
  }

  predicate Grounded(labels: Fields) {
    && "evidence_locators" in labels && Located(labels["evidence_locators"])
    && "rationale" in labels && SomeText(labels["rationale"])
  }

  predicate KeepsGrounds(labels: Fields, evidence: seq<string>, rationale: string)
    requires Grounded(labels)
  {
    && |evidence| == |labels["evidence_locators"].items|
    && (forall i :: 0 <= i < |evidence| ==> Reads(labels["evidence_locators"].items[i], evidence[i]))
    && Reads(labels["rationale"], rationale)
  }

  predicate ValidFailureFields(labels: Fields) {
    && labels.Keys == {"schema_version", "subject_kind", "criteria", "evidence_locators", "rationale"}
    && Headed(labels, "failure_analysis")
    && JudgedFailure(labels,
                     {"observations_match_evidence", "hypotheses_clearly_labeled", "likely_cause_plausible",
                      "alternatives_considered_when_material", "recommended_next_checks_actionable",
                      "no_unsupported_root_cause_claim"})
  }

  predicate JudgedFailure(labels: Fields, keys: set<string>) {
    Grounded(labels) && "criteria" in labels && Assessed(labels["criteria"], keys)
  }

  predicate KeepsCriteria(labels: Fields, criteria: map<string, string>)
    requires "criteria" in labels && labels["criteria"].Obj?
  {
    && criteria.Keys == labels["criteria"].fields.Keys
    && forall k :: k in criteria ==> Reads(labels["criteria"].fields[k], criteria[k])
  }

  lemma HeadIsChecked(labels: Fields, kind: SubjectKind)
    ensures Headed(labels, KindName(kind)) <==>
            && "schema_version" in labels && labels["schema_version"] == Str(LABEL_SCHEMA_VERSION)
            && "subject_kind" in labels && labels["subject_kind"] == Str(KindName(kind))
  {
  }

  lemma FailureFields()
    ensures FAILURE_FIELDS == {"schema_version", "subject_kind", "criteria", "evidence_locators", "rationale"}
    ensures FAILURE_CRITERIA
         == {"observations_match_evidence", "hypotheses_clearly_labeled", "likely_cause_plausible",
             "alternatives_considered_when_material", "recommended_next_checks_actionable",
             "no_unsupported_root_cause_claim"}
  {
  }

  lemma FailureIsJudged(labels: Fields, fields: set<string>, keys: set<string>)
    requires labels.Keys == fields == FAILURE_FIELDS && keys == FAILURE_CRITERIA
    ensures ValidateFailureAnalysis(labels).Ok? <==> JudgedFailure(labels, keys)
    ensures JudgedFailure(labels, keys) ==>
              var l := ValidateFailureAnalysis(labels).value;
              l.FailureLabel? && KeepsGrounds(labels, l.evidence, l.rationale) && KeepsCriteria(labels, l.criteria)
  {
    assert "criteria" in fields && "evidence_locators" in fields && "rationale" in fields;
    AssessmentsExactly(labels["criteria"], keys);
    LocatorsExactly(labels["evidence_locators"]);
    TextExactly(labels["rationale"]);
  }

  // A failure analysis is valid with exactly its five fields, an assessment for
  // each of its six criteria, evidence and a rationale; it keeps them, stripped.
  lemma FailureAnalysisExactly(labels: Fields)
    ensures Validate(FailureAnalysis, labels).Ok? <==> ValidFailureFields(labels)
    ensures ValidFailureFields(labels) ==>
              var l := Validate(FailureAnalysis, labels).value;
              l.FailureLabel? && KeepsGrounds(labels, l.evidence, l.rationale) && KeepsCriteria(labels, l.criteria)
  {
    HeadIsChecked(labels, FailureAnalysis);
    FailureFields();
    if labels.Keys == FAILURE_FIELDS {
      FailureIsJudged(labels, FAILURE_FIELDS, FAILURE_CRITERIA);
    }
  }

  predicate ValidFindingFields(labels: Fields) {
    && labels.Keys == {"schema_version", "subject_kind", "score", "criteria", "unsupported_claim_present",
                       "evidence_locators", "rationale"}
    && Headed(labels, "finding")
    && JudgedFinding(labels, {"material_issue", "category", "source", "explanation"})
  }

  predicate JudgedFinding(labels: Fields, keys: set<string>) {
    && Grounded(labels) && "criteria" in labels && Assessed(labels["criteria"], keys)
    && "unsupported_claim_present" in labels && labels["unsupported_claim_present"].Bool?
    && "score" in labels
    && labels["score"] == Int(ExpectedScore(labels["criteria"], labels["unsupported_claim_present"].b))
  }

  function ExpectedScore(criteria: Json, unsupportedClaim: bool): int
    requires criteria.Obj? && forall k :: k in criteria.fields ==> criteria.fields[k].Str?
  {
    if unsupportedClaim || exists k :: k in criteria.fields && Strip(criteria.fields[k].s) == "does_not_meet" then 0
    else if forall k :: k in criteria.fields ==> Strip(criteria.fields[k].s) == "meets" then 2
    else 1
  }

  lemma ScoreIsExpected(value: Json, criteria: map<string, string>, unsupportedClaim: bool)
    requires value.Obj? && criteria.Keys == value.fields.Keys
    requires forall k :: k in value.fields ==> k in criteria && Reads(value.fields[k], criteria[k])
    ensures forall k :: k in value.fields ==> value.fields[k].Str?
    ensures FindingScore(criteria, unsupportedClaim) == ExpectedScore(value, unsupportedClaim)
  {
    FindingScoreExactly(criteria, unsupportedClaim);
  }

  lemma FindingFields()
    ensures FINDING_FIELDS
         == {"schema_version", "subject_kind", "score", "criteria", "unsupported_claim_present",
             "evidence_locators", "rationale"}
    ensures FINDING_CRITERIA == {"material_issue", "category", "source", "explanation"}
  {
  }

  lemma FindingIsJudged(labels: Fields, fields: set<string>, keys: set<string>)
    requires labels.Keys == fields == FINDING_FIELDS && keys == FINDING_CRITERIA
    ensures ValidateFinding(labels).Ok? <==> JudgedFinding(labels, keys)
    ensures JudgedFinding(labels, keys) ==>
              var l := ValidateFinding(labels).value;
              && l.FindingLabel? && KeepsGrounds(labels, l.evidence, l.rationale) && KeepsCriteria(labels, l.criteria)
              && labels["score"] == Int(l.score) && labels["unsupported_claim_present"] == Bool(l.unsupportedClaim)
  {
    assert "criteria" in fields && "evidence_locators" in fields && "rationale" in fields;
    assert "unsupported_claim_present" in fields && "score" in fields;
    AssessmentsExactly(labels["criteria"], keys);
    LocatorsExactly(labels["evidence_locators"]);
    TextExactly(labels["rationale"]);
    ScoreIsChecked(labels["criteria"], keys, labels["unsupported_claim_present"], labels["score"]);
  }

  lemma ScoreIsChecked(value: Json, keys: set<string>, claim: Json, score: Json)
    ensures Assessed(value, keys) && claim.Bool? ==>
              && AssessmentMapping(value, keys).Ok?
              && (IsScore(score) && score.i == FindingScore(AssessmentMapping(value, keys).value, claim.b)
                  <==> score == Int(ExpectedScore(value, claim.b)))
  {
    AssessmentsExactly(value, keys);
    if Assessed(value, keys) && claim.Bool? {
      var criteria := AssessmentMapping(value, keys).value;
      ScoreIsExpected(value, criteria, claim.b);
      FindingScoreExactly(criteria, claim.b);
    }
  }

  // A finding is valid with exactly its seven fields, an assessment for each of
  // its four criteria, and the score that these and the claim call for.
  lemma FindingExactly(labels: Fields)
    ensures Validate(Finding, labels).Ok? <==> ValidFindingFields(labels)
    ensures ValidFindingFields(labels) ==>
              var l := Validate(Finding, labels).value;
              && l.FindingLabel? && KeepsGrounds(labels, l.evidence, l.rationale) && KeepsCriteria(labels, l.criteria)
              && labels["score"] == Int(l.score) && labels["unsupported_claim_present"] == Bool(l.unsupportedClaim)
  {
    HeadIsChecked(labels, Finding);
    FindingFields();
    if labels.Keys == FINDING_FIELDS {
      FindingIsJudged(labels, FINDING_FIELDS, FINDING_CRITERIA);
    }
  }

  predicate ValidTestCaseFields(labels: Fields) {
    && labels.Keys == {"schema_version", "subject_kind", "dimensions", "execution_policy_violation", "material_duplicate",
                       "evidence_locators", "rationale"}
    && Headed(labels, "test_case") && Grounded(labels)
    && Scored(labels["dimensions"],
              {"objective", "preconditions_and_input", "procedure_or_request", "expected_result", "evidence_and_traceability"})
    && labels["execution_policy_violation"].Bool? && labels["material_duplicate"].Bool?
  }

  lemma TestCaseExactly(labels: Fields)
    ensures Validate(TestCase, labels).Ok? <==> ValidTestCaseFields(labels)
    ensures ValidTestCaseFields(labels) ==>
              var l := Validate(TestCase, labels).value;
              && l.TestCaseLabel? && KeepsGrounds(labels, l.evidence, l.rationale)
              && labels["execution_policy_violation"] == Bool(l.policyViolation)
              && labels["material_duplicate"] == Bool(l.duplicate)
              && l.dimensions.Keys == labels["dimensions"].fields.Keys
              && (forall k :: k in l.dimensions ==> labels["dimensions"].fields[k] == Int(l.dimensions[k]))
              && l.totalScore == TotalScore(l.dimensions)
              && l.humanAccepted == HumanAccepted(l.dimensions, l.policyViolation, l.duplicate)
  {
    if labels.Keys == TEST_CASE_FIELDS {
      ScoresExactly(labels["dimensions"], TEST_CASE_DIMENSIONS);
      LocatorsExactly(labels["evidence_locators"]);
      TextExactly(labels["rationale"]);
    }
  }

  // ---- Stored labels read back ----

  lemma CriteriaAreKept(criteria: map<string, string>)
    requires forall k :: k in criteria ==> Stripped(criteria[k])
    ensures TextMap(criteria).fields.Keys == criteria.Keys
    ensures forall k :: k in criteria ==>
              TextMap(criteria).fields[k].Str? && Strip(TextMap(criteria).fields[k].s) == criteria[k]
  {
  }

  // Every assessment is one of the allowed ones.
  predicate Allowed(value: Json, allowed: set<string>)
    requires value.Obj?
  {
    forall k | k in value.fields :: value.fields[k].Str? && Strip(value.fields[k].s) in allowed
  }

  lemma AllowedIsAccepted(value: Json, keys: set<string>)
    requires value.Obj? && value.fields.Keys == keys && Allowed(value, ASSESSMENTS)
    ensures AssessmentMapping(value, keys) == Ok(map k | k in value.fields :: Strip(value.fields[k].s))
  {
  }

  lemma CriteriaAreAllowed(criteria: map<string, string>, allowed: set<string>)
    requires forall k :: k in criteria ==> criteria[k] in allowed && Stripped(criteria[k])
    ensures Allowed(TextMap(criteria), allowed)
    ensures (map k | k in TextMap(criteria).fields :: Strip(TextMap(criteria).fields[k].s)) == criteria
  {
    CriteriaAreKept(criteria);
  }

  lemma CriteriaAreAccepted(criteria: map<string, string>, keys: set<string>)
    requires criteria.Keys == keys && forall k :: k in criteria ==> criteria[k] in ASSESSMENTS && Stripped(criteria[k])
    ensures AssessmentMapping(TextMap(criteria), keys) == Ok(criteria)
  {
    CriteriaAreKept(criteria);
    CriteriaAreAllowed(criteria, ASSESSMENTS);
    AllowedIsAccepted(TextMap(criteria), keys);
  }

  lemma ScoresAreAccepted(scores: map<string, int>, keys: set<string>)
    requires scores.Keys == keys && forall k :: k in scores ==> 0 <= scores[k] <= 2
    ensures ScoreMapping(IntMap(scores), keys) == Ok(scores)
  {
    var fields := IntMap(scores).fields;
    assert forall k :: k in fields ==> fields[k] == Int(scores[k]) && IsScore(fields[k]);
    assert ScoreMapping(IntMap(scores), keys).value == scores;
  }

  predicate NormalText(s: string) {
    s != "" && Stripped(s)
  }

  predicate NormalTexts(a: seq<string>) {
    a != [] && forall i :: 0 <= i < |a| ==> NormalText(a[i])
  }

  lemma NormalTextIsAccepted(s: string)
    requires NormalText(s)
    ensures RequiredText(Str(s)) == Ok(s)
  {
  }

  lemma TextListIsAccepted(a: seq<string>)
    requires NormalTexts(a)
    ensures EvidenceLocators(TextList(a)) == Ok(a)
  {
    var items := TextList(a).items;
    forall i | 0 <= i < |items| ensures RequiredText(items[i]) == Ok(a[i]) {
      NormalTextIsAccepted(a[i]);
    }
    assert EvidenceLocators(TextList(a)).value == a;
  }

  lemma TextIsNormal(value: Json)
    requires RequiredText(value).Ok?
    ensures NormalText(RequiredText(value).value)
  {
  }

  lemma LocatorsAreNormal(value: Json)
    requires EvidenceLocators(value).Ok?
    ensures NormalTexts(EvidenceLocators(value).value)
  {
    forall i | 0 <= i < |value.items| ensures NormalText(Strip(value.items[i].s)) {
      TextIsNormal(value.items[i]);
    }
  }

  predicate NormalCriteria(criteria: map<string, string>) {
    forall k :: k in criteria ==> criteria[k] in ASSESSMENTS && Stripped(criteria[k])
  }

  lemma CriteriaAreNormal(value: Json, keys: set<string>)
    requires AssessmentMapping(value, keys).Ok?
    ensures AssessmentMapping(value, keys).value.Keys == keys && NormalCriteria(AssessmentMapping(value, keys).value)
  {
    var allowed := ASSESSMENTS;
    var criteria := AssessmentMapping(value, keys).value;
    forall k | k in criteria ensures criteria[k] in allowed && Stripped(criteria[k]) {
      assert criteria[k] == Strip(value.fields[k].s);
    }
  }

  // The fields a label was validated from: all that are stored but the two that
  // are derived for a test case.
  function Submitted(l: ReviewLabel): Fields {
    l.AsFields() - {"total_score", "human_accepted"}
  }

  lemma FailureSubmitted(l: ReviewLabel)
    requires l.FailureLabel?
    ensures Submitted(l) == l.AsFields() && l.AsFields().Keys == FAILURE_FIELDS
    ensures var f := l.AsFields();
            && "schema_version" in f && f["schema_version"] == Str(LABEL_SCHEMA_VERSION)
            && "subject_kind" in f && f["subject_kind"] == Str("failure_analysis")
            && "criteria" in f && f["criteria"] == TextMap(l.criteria)
            && "evidence_locators" in f && f["evidence_locators"] == TextList(l.evidence)
            && "rationale" in f && f["rationale"] == Str(l.rationale)
  {
  }

  lemma FindingSubmitted(l: ReviewLabel)
    requires l.FindingLabel?
    ensures Submitted(l) == l.AsFields() && l.AsFields().Keys == FINDING_FIELDS
    ensures var f := l.AsFields();
            && "schema_version" in f && f["schema_version"] == Str(LABEL_SCHEMA_VERSION)
            && "subject_kind" in f && f["subject_kind"] == Str("finding")
            && "score" in f && f["score"] == Int(l.score)
            && "criteria" in f && f["criteria"] == TextMap(l.criteria)
            && "unsupported_claim_present" in f && f["unsupported_claim_present"] == Bool(l.unsupportedClaim)
            && "evidence_locators" in f && f["evidence_locators"] == TextList(l.evidence)
            && "rationale" in f && f["rationale"] == Str(l.rationale)
  {
  }

  lemma TestCaseSubmitted(l: ReviewLabel)
    requires l.TestCaseLabel?
    ensures Submitted(l).Keys == TEST_CASE_FIELDS
    ensures var f := Submitted(l);
            && "schema_version" in f && f["schema_version"] == Str(LABEL_SCHEMA_VERSION)
            && "subject_kind" in f && f["subject_kind"] == Str("test_case")
            && "dimensions" in f && f["dimensions"] == IntMap(l.dimensions)
            && "execution_policy_violation" in f && f["execution_policy_violation"] == Bool(l.policyViolation)
            && "material_duplicate" in f && f["material_duplicate"] == Bool(l.duplicate)
            && "evidence_locators" in f && f["evidence_locators"] == TextList(l.evidence)
            && "rationale" in f && f["rationale"] == Str(l.rationale)
    ensures l.AsFields().Keys == TEST_CASE_FIELDS + {"total_score", "human_accepted"}
    ensures l.AsFields()["total_score"] == Int(l.totalScore) && l.AsFields()["human_accepted"] == Bool(l.humanAccepted)
  {
  }

  predicate HeadHolds(f: Fields, kind: SubjectKind) {
    && "schema_version" in f && f["schema_version"] == Str(LABEL_SCHEMA_VERSION)
    && "subject_kind" in f && f["subject_kind"] == Str(KindName(kind))
  }

  lemma FailureValidates(f: Fields, l: ReviewLabel)
    requires l.FailureLabel? && f.Keys == FAILURE_FIELDS && HeadHolds(f, FailureAnalysis)
    requires "criteria" in f && AssessmentMapping(f["criteria"], FAILURE_CRITERIA) == Ok(l.criteria)
    requires "evidence_locators" in f && EvidenceLocators(f["evidence_locators"]) == Ok(l.evidence)
    requires "rationale" in f && RequiredText(f["rationale"]) == Ok(l.rationale)
    ensures Validate(FailureAnalysis, f) == Ok(l)
  {
  }

  lemma FindingValidates(f: Fields, l: ReviewLabel)
    requires l.FindingLabel? && f.Keys == FINDING_FIELDS && HeadHolds(f, Finding) && l.Consistent()
    requires "criteria" in f && AssessmentMapping(f["criteria"], FINDING_CRITERIA) == Ok(l.criteria)
    requires "unsupported_claim_present" in f && f["unsupported_claim_present"] == Bool(l.unsupportedClaim)
    requires "score" in f && f["score"] == Int(l.score)
    requires "evidence_locators" in f && EvidenceLocators(f["evidence_locators"]) == Ok(l.evidence)
    requires "rationale" in f && RequiredText(f["rationale"]) == Ok(l.rationale)
    ensures Validate(Finding, f) == Ok(l)
  {
    FindingScoreExactly(l.criteria, l.unsupportedClaim);
  }

  lemma TestCaseValidates(f: Fields, l: ReviewLabel)
    requires l.TestCaseLabel? && f.Keys == TEST_CASE_FIELDS && HeadHolds(f, TestCase) && l.Consistent()
    requires "dimensions" in f && ScoreMapping(f["dimensions"], TEST_CASE_DIMENSIONS) == Ok(l.dimensions)
    requires "execution_policy_violation" in f && f["execution_policy_violation"] == Bool(l.policyViolation)
    requires "material_duplicate" in f && f["material_duplicate"] == Bool(l.duplicate)
    requires "evidence_locators" in f && EvidenceLocators(f["evidence_locators"]) == Ok(l.evidence)
    requires "rationale" in f && RequiredText(f["rationale"]) == Ok(l.rationale)
    ensures Validate(TestCase, f) == Ok(l)
  {
  }

  // What validation yields: stripped, non-blank texts and allowed values.
  predicate Normal(l: ReviewLabel) {
    match l
    case FindingLabel(_, criteria, _, evidence, rationale) =>
      NormalCriteria(criteria) && NormalTexts(evidence) && NormalText(rationale)
    case TestCaseLabel(dimensions, _, _, _, _, evidence, rationale) =>
      (forall k :: k in dimensions ==> 0 <= dimensions[k] <= 2) && NormalTexts(evidence) && NormalText(rationale)
    case FailureLabel(criteria, evidence, rationale) =>
      NormalCriteria(criteria) && NormalTexts(evidence) && NormalText(rationale)
  }

  lemma ScoresAreNormal(value: Json, keys: set<string>)
    requires ScoreMapping(value, keys).Ok?
    ensures forall k :: k in ScoreMapping(value, keys).value ==> 0 <= ScoreMapping(value, keys).value[k] <= 2
  {
  }

  lemma ValidIsNormal(kind: SubjectKind, labels: Fields)
    requires Validate(kind, labels).Ok?
    ensures Normal(Validate(kind, labels).value)
  {
    match kind
    case Finding =>
      CriteriaAreNormal(labels["criteria"], FINDING_CRITERIA);
      LocatorsAreNormal(labels["evidence_locators"]);
      TextIsNormal(labels["rationale"]);
    case TestCase =>
      ScoresAreNormal(labels["dimensions"], TEST_CASE_DIMENSIONS);
      LocatorsAreNormal(labels["evidence_locators"]);
      TextIsNormal(labels["rationale"]);
    case FailureAnalysis =>
      CriteriaAreNormal(labels["criteria"], FAILURE_CRITERIA);
      LocatorsAreNormal(labels["evidence_locators"]);
      TextIsNormal(labels["rationale"]);
  }

  lemma NormalReadsBack(l: ReviewLabel)
    requires Normal(l) && l.Consistent()
    ensures Validate(l.Kind(), Submitted(l)) == Ok(l)
  {
    match l
    case FindingLabel(_, _, _, _, _) => NormalFindingReadsBack(l);
    case TestCaseLabel(_, _, _, _, _, _, _) => NormalTestCaseReadsBack(l);
    case FailureLabel(_, _, _) => NormalFailureReadsBack(l);
  }

  lemma NormalFindingReadsBack(l: ReviewLabel)
    requires l.FindingLabel? && Normal(l) && l.Consistent()
    ensures Validate(l.Kind(), Submitted(l)) == Ok(l)
  {
    TextListIsAccepted(l.evidence);
    NormalTextIsAccepted(l.rationale);
    FindingSubmitted(l);
    CriteriaAreAccepted(l.criteria, FINDING_CRITERIA);
    FindingValidates(Submitted(l), l);
  }

  lemma NormalTestCaseReadsBack(l: ReviewLabel)
    requires l.TestCaseLabel? && Normal(l) && l.Consistent()
    ensures Validate(l.Kind(), Submitted(l)) == Ok(l)
  {
    TextListIsAccepted(l.evidence);
    NormalTextIsAccepted(l.rationale);
    TestCaseSubmitted(l);
    ScoresAreAccepted(l.dimensions, TEST_CASE_DIMENSIONS);
    TestCaseValidates(Submitted(l), l);
  }

  lemma NormalFailureReadsBack(l: ReviewLabel)
    requires l.FailureLabel? && Normal(l) && l.Consistent()
    ensures Validate(l.Kind(), Submitted(l)) == Ok(l)
  {
    FailureSubmitted(l);
    FailureFieldsReadBack(l, Submitted(l));
  }

  lemma FailureFieldsReadBack(l: ReviewLabel, f: Fields)
    requires l.FailureLabel? && NormalCriteria(l.criteria) && l.criteria.Keys == FAILURE_CRITERIA
    requires NormalTexts(l.evidence) && NormalText(l.rationale)
    requires f.Keys == FAILURE_FIELDS && HeadHolds(f, FailureAnalysis)
    requires "criteria" in f && f["criteria"] == TextMap(l.criteria)
    requires "evidence_locators" in f && f["evidence_locators"] == TextList(l.evidence)
    requires "rationale" in f && f["rationale"] == Str(l.rationale)
    ensures Validate(FailureAnalysis, f) == Ok(l)
  {
    TextListIsAccepted(l.evidence);
    NormalTextIsAccepted(l.rationale);
    CriteriaAreAccepted(l.criteria, FAILURE_CRITERIA);
    FailureValidates(f, l);
  }

  // A stored label is the normal form of what was submitted: validating its
  // fields again, without the derived ones, yields the same label.
  lemma StoredLabelsReadBack(kind: SubjectKind, labels: Fields)
    requires Validate(kind, labels).Ok?
    ensures var l := Validate(kind, labels).value; Validate(kind, Submitted(l)) == Ok(l)
  {
    ValidIsNormal(kind, labels);
    NormalReadsBack(Validate(kind, labels).value);
  }

  // ---- Material fields ----

  predicate Below(path: string, start: string, keys: set<string>) {
    exists k :: k in keys && path == start + k
  }

  lemma PathsBelow(name: string, keys: set<string>, start: string)
    requires start == "/" + name + "/"
    ensures forall path :: path in (set k | k in keys :: Path2(name, k)) <==> Below(path, start, keys)
  {
    assert forall k :: Path2(name, k) == start + k;
  }

  lemma MaterialFindingPaths(path: string)
    ensures path in MaterialPaths(Finding)
       <==> path == "/score" || path == "/unsupported_claim_present"
            || Below(path, "/criteria/", {"material_issue", "category", "source", "explanation"})
  {
    FindingFields();
    PathsBelow("criteria", FINDING_CRITERIA, "/criteria/");
    assert Path1("score") == "/score" && Path1("unsupported_claim_present") == "/unsupported_claim_present";
  }

  lemma TestCaseDimensions()
    ensures TEST_CASE_DIMENSIONS
         == {"objective", "preconditions_and_input", "procedure_or_request", "expected_result", "evidence_and_traceability"}
  {
  }

  lemma MaterialTestCasePaths(path: string)
    ensures path in MaterialPaths(TestCase)
       <==> path == "/execution_policy_violation" || path == "/material_duplicate"
            || Below(path, "/dimensions/", {"objective", "preconditions_and_input", "procedure_or_request",
                                            "expected_result", "evidence_and_traceability"})
  {
    TestCaseDimensions();
    PathsBelow("dimensions", TEST_CASE_DIMENSIONS, "/dimensions/");
    FlagPaths();
  }

  lemma FlagPaths()
    ensures Path1("execution_policy_violation") == "/execution_policy_violation"
    ensures Path1("material_duplicate") == "/material_duplicate"
  {
  }

  lemma MaterialFailurePaths(path: string)
    ensures path in MaterialPaths(FailureAnalysis)
       <==> Below(path, "/criteria/", {"observations_match_evidence", "hypotheses_clearly_labeled", "likely_cause_plausible",
                                       "alternatives_considered_when_material", "recommended_next_checks_actionable",
                                       "no_unsupported_root_cause_claim"})
  {
    FailureFields();
    PathsBelow("criteria", FAILURE_CRITERIA, "/criteria/");
  }
}
