// What accepted release-review evidence claims and rests on, written out over
// the manifest's own entries.
module ReleaseClaims {
  import opened Basics
  import opened JsonTree
  import opened LabelCompleteness

  // ---- Entries ----

  predicate Written(j: Json, read: Reader) {
    j.Str? && !read.blank(j.s)
  }

  predicate Dated(j: Json, read: Reader) {
    Written(j, read) && read.instant(j.s).Some?
  }

  predicate LowerHex(s: string, n: nat) {
    |s| == n && forall i :: 0 <= i < n ==> '0' <= s[i] <= '9' || 'a' <= s[i] <= 'f'
  }

  lemma HexIsLowerHex(s: string, n: nat)
    ensures Hex(s, n) <==> LowerHex(s, n)
  {
    HexExactly(s, n);
  }

  // ---- The header ----

  // The same written text on both sides.
  predicate Shared(a: Json, b: Json, read: Reader) {
    Written(a, read) && Written(b, read) && a.s == b.s
  }

  predicate Provenance(m: Manifest, sel: Selection, read: Reader) {
    && Shared(m.selectionId, sel.selectionId, read)
    && Shared(m.caseDigest, sel.caseDigest, read) && LowerHex(m.caseDigest.s, 64)
    && Shared(m.truthDigest, sel.truthDigest, read) && LowerHex(m.truthDigest.s, 64)
  }

  predicate FrozenCandidate(m: Manifest, read: Reader) {
    && m.candidate.Mapping? && Written(m.candidate.m.commitSha, read) && LowerHex(m.candidate.m.commitSha.s, 40)
    && Dated(m.candidate.m.frozenAt, read)
  }

  // The selection was recorded by the time of the freeze, before any execution
  // and without replacement.
  predicate SelectedBeforehand(p: Policy, frozenAt: int, read: Reader) {
    && Dated(p.recordedAt, read) && read.instant(p.recordedAt.s).value <= frozenAt
    && p.beforeExecution == Bool(true) && p.replacement == Str("no_replacement")
  }

  // Internal mode discloses that nothing was independently validated, and why;
  // independent mode that it was.  No custody is claimed either way.
  predicate DisclosedMode(r: ModeRecord, read: Reader) {
    && r.schemaVersion == Str("evaluation-review-mode/v1") && r.custodyClaimed == Bool(false)
    && Written(r.mode, read) && Written(r.status, read) && Written(r.disclosure, read)
    && ((r.mode.s == "internal" && r.status.s == "not_performed"
         && r.disclosure.s == "results_not_independently_validated" && Written(r.rationale, read))
        || (r.mode.s == "independent" && r.status.s == "completed" && r.disclosure.s == "independently_reviewed"))
  }

  predicate Header(m: Manifest, sel: Selection, suite: Suite, read: Reader) {
    && Written(m.schemaVersion, read) && Written(m.datasetVersion, read) && m.datasetVersion.s == suite.suiteId
    && Provenance(m, sel, read) && FrozenCandidate(m, read)
    && ((m.schemaVersion.s == "release-review-manifest/v1" && m.reviewMode == None)
        || (m.schemaVersion.s == "release-review-manifest/v2"
            && sel.policy.Mapping? && SelectedBeforehand(sel.policy.m, read.instant(m.candidate.m.frozenAt.s).value, read)
            && m.reviewMode.Some? && m.reviewMode.value.Mapping? && DisclosedMode(m.reviewMode.value.m, read)))
  }

  lemma ModesDiffer()
    ensures "internal" != "independent"
    ensures "release-review-manifest/v1" != "release-review-manifest/v2"
  {
    assert |"internal"| != |"independent"|;
    assert "release-review-manifest/v1"[25] != "release-review-manifest/v2"[25];
  }

  lemma ModeExactly(r: ModeRecord, read: Reader)
    ensures ModeAccepted(r, read) <==> DisclosedMode(r, read)
  {
    ModesDiffer();
  }

  lemma PolicyExactly(p: Policy, frozenAt: int, read: Reader)
    ensures PolicyAccepted(p, frozenAt, read) <==> SelectedBeforehand(p, frozenAt, read)
  {
  }

  lemma ProvenanceExactly(m: Manifest, sel: Selection, read: Reader)
    ensures ProvenanceAccepted(m, sel, read) <==> Provenance(m, sel, read)
  {
    if Written(m.caseDigest, read) { HexIsLowerHex(m.caseDigest.s, 64); }
    if Written(m.truthDigest, read) { HexIsLowerHex(m.truthDigest.s, 64); }
  }

  lemma CandidateExactly(m: Manifest, read: Reader)
    ensures CandidateAccepted(m, read) <==> FrozenCandidate(m, read)
  {
    if m.candidate.Mapping? && Written(m.candidate.m.commitSha, read) { HexIsLowerHex(m.candidate.m.commitSha.s, 40); }
  }

  lemma HeaderExactly(m: Manifest, sel: Selection, suite: Suite, read: Reader)
    ensures HeaderAccepted(m, sel, suite, read) <==> Header(m, sel, suite, read)
  {
    ModesDiffer();
    ProvenanceExactly(m, sel, read);
    CandidateExactly(m, read);
    if FrozenCandidate(m, read) && sel.policy.Mapping? {
      PolicyExactly(sel.policy.m, read.instant(m.candidate.m.frozenAt.s).value, read);
    }
    if m.reviewMode.Some? && m.reviewMode.value.Mapping? { ModeExactly(m.reviewMode.value.m, read); }
  }

  // The mode is what the manifest discloses, and independent under the first
  // schema, which knows no other.
  predicate SaysInternal(m: Manifest) {
    && m.schemaVersion == Str("release-review-manifest/v2")
    && m.reviewMode.Some? && m.reviewMode.value.Mapping? && m.reviewMode.value.m.mode == Str("internal")
  }

  lemma ModeIsDisclosed(m: Manifest, sel: Selection, suite: Suite, read: Reader)
    requires HeaderAccepted(m, sel, suite, read)
    ensures ModeOf(m) == Internal <==> SaysInternal(m)
  {
    ModesDiffer();
    HeaderExactly(m, sel, suite, read);
  }

  // ---- The release status ----

  // In internal mode the primary labels are complete, and nothing else is
  // claimed to be.
  predicate InternalClaims(s: StatusRecord) {
    && s.primaryComplete == Bool(true) && s.independentComplete == Bool(false) && s.adjudicationComplete == Bool(false)
    && s.eligible == Bool(false) && s.allReviewsComplete != Bool(true) && s.allResolved != Bool(true)
  }

  predicate IndependentClaims(s: StatusRecord, second: bool) {
    && s.eligible == Bool(true) && s.allReviewsComplete == Bool(true) && s.allResolved == Bool(true)
    && (second ==> s.independentComplete == Bool(true) && s.adjudicationComplete == Bool(true))
  }

  // Acceptance never claims more than the mode allows: a release is eligible if
  // and only if the review was independent.
  lemma ClaimsFitTheMode(m: Manifest, sel: Selection, suite: Suite, read: Reader)
    requires Accepted(m, sel, suite, read)
    ensures m.releaseStatus.Mapping?
    ensures m.releaseStatus.m.eligible == Bool(true) <==> !SaysInternal(m)
    ensures SaysInternal(m) ==> InternalClaims(m.releaseStatus.m)
    ensures !SaysInternal(m) ==>
              IndependentClaims(m.releaseStatus.m, m.schemaVersion == Str("release-review-manifest/v2"))
  {
    ModeIsDisclosed(m, sel, suite, read);
  }

  // And truthful claims suffice: with them, the status of an accepted manifest
  // can be any other.
  lemma TruthfulClaimsPass(m: Manifest, sel: Selection, suite: Suite, read: Reader, s: StatusRecord)
    requires Accepted(m, sel, suite, read)
    ensures Accepted(m.(releaseStatus := Mapping(s)), sel, suite, read)
       <==> if SaysInternal(m) then InternalClaims(s)
            else IndependentClaims(s, m.schemaVersion == Str("release-review-manifest/v2"))
  {
    var other := m.(releaseStatus := Mapping(s));
    HeaderIgnoresStatus(m, sel, suite, read, s);
    StatusDecides(m, Table(m.labels.items, LabelId, read), Records(m.labels.items), ContextOf(m, sel, suite, read), s);
    StatusExactly(m, sel, suite, read, s);
  }

  lemma HeaderIgnoresStatus(m: Manifest, sel: Selection, suite: Suite, read: Reader, s: StatusRecord)
    requires HeaderAccepted(m, sel, suite, read) && sel.selectedCases.List? && m.attestations.List?
    ensures HeaderAccepted(m.(releaseStatus := Mapping(s)), sel, suite, read)
    ensures ContextOf(m.(releaseStatus := Mapping(s)), sel, suite, read) == ContextOf(m, sel, suite, read)
  {
  }

  lemma StatusDecides(m: Manifest, table: map<string, LabelRecord>, labels: seq<LabelRecord>, ctx: Context, s: StatusRecord)
    requires EvidenceAccepted(m, table, labels, ctx)
    ensures EvidenceAccepted(m.(releaseStatus := Mapping(s)), table, labels, ctx)
       <==> StatusAccepted(s, ctx.mode, SecondSchema(m))
  {
  }

  lemma StatusExactly(m: Manifest, sel: Selection, suite: Suite, read: Reader, s: StatusRecord)
    requires HeaderAccepted(m, sel, suite, read)
    ensures StatusAccepted(s, ModeOf(m), SecondSchema(m))
       <==> if SaysInternal(m) then InternalClaims(s)
            else IndependentClaims(s, m.schemaVersion == Str("release-review-manifest/v2"))
  {
    ModeIsDisclosed(m, sel, suite, read);
  }

  // ---- Attestations and the selection ----

  predicate Attests(a: AttestationRecord, read: Reader) {
    && Written(a.id, read) && Written(a.reviewerId, read) && Written(a.qualification, read) && Dated(a.attestedAt, read)
    && (a.eligible == Bool(true) || a.eligible == Bool(false)) && (a.independent == Bool(true) || a.independent == Bool(false))
  }

  // Attestations are complete, named once each, and in internal mode none
  // claims independence.
  lemma AttestationsExactly(m: Manifest, sel: Selection, suite: Suite, read: Reader, i: nat)
    requires Accepted(m, sel, suite, read)
    ensures m.attestations.List?
    ensures i < |m.attestations.items| ==>
              && m.attestations.items[i].Mapping? && Attests(m.attestations.items[i].m, read)
              && (SaysInternal(m) ==> m.attestations.items[i].m.independent == Bool(false))
              && forall j :: i < j < |m.attestations.items| && m.attestations.items[j].Mapping? ==>
                   m.attestations.items[j].m.id != m.attestations.items[i].m.id
  {
    ModeIsDisclosed(m, sel, suite, read);
    if i < |m.attestations.items| {
      TableItem(m.attestations.items, AttestationId, read, i);
      assert AttestationValid(m.attestations.items[i].m, read);
      forall j | i < j < |m.attestations.items| && m.attestations.items[j].Mapping?
        ensures m.attestations.items[j].m.id != m.attestations.items[i].m.id
      {
        assert Named(m.attestations.items[i], AttestationId, read) && Named(m.attestations.items[j], AttestationId, read);
      }
    }
  }

  lemma {:induction false} TableSize<T>(items: seq<Found<T>>, id: T -> Json, read: Reader)
    requires Indexed(items, id, read)
    ensures |Table(items, id, read)| == |items|
  {
    if items != [] {
      var n := |items| - 1;
      IndexedPrefix(items, id, read, n);
      TableSize(items[..n], id, read);
      IndexedNext(items, id, read, n);
      assert items[..n + 1] == items;
      assert Table(items, id, read).Keys == Table(items[..n], id, read).Keys + {id(items[n].m).s};
    }
  }

  // The selection is a list of twenty different cases of the suite.
  lemma SelectionExactly(sel: Selection, cases: map<string, Case>, read: Reader)
    ensures SelectionAccepted(sel, cases, read) <==>
            && sel.selectedCases.List? && |sel.selectedCases.items| == 20
            && (forall i :: 0 <= i < |sel.selectedCases.items| ==>
                  && sel.selectedCases.items[i].Mapping? && Written(sel.selectedCases.items[i].m.caseId, read)
                  && sel.selectedCases.items[i].m.caseId.s in cases)
            && forall i, j :: 0 <= i < j < |sel.selectedCases.items| ==>
                 sel.selectedCases.items[i].m.caseId != sel.selectedCases.items[j].m.caseId
  {
    if sel.selectedCases.List? {
      var items := sel.selectedCases.items;
      if Indexed(items, SelectedId, read) {
        TableSize(items, SelectedId, read);
        forall i, j | 0 <= i < j < |items| ensures items[i].m.caseId != items[j].m.caseId {
          assert Named(items[i], SelectedId, read) && Named(items[j], SelectedId, read);
        }
      }
    }
  }

  // ---- Holdout access ----

  // A lawful access: by a named person, at a time, for one of three purposes, of
  // known holdout cases; owner labelling names no candidate, and any other
  // purpose names this one and comes after its freeze.
  predicate LawfulAccess(e: AccessEvent, ctx: Context) {
    && Written(e.accessor, ctx.read) && Dated(e.accessedAt, ctx.read) && Written(e.purpose, ctx.read)
    && e.caseIds.Arr? && |e.caseIds.items| >= 1
    && (forall i :: 0 <= i < |e.caseIds.items| ==>
          && e.caseIds.items[i].Str? && e.caseIds.items[i].s in ctx.cases
          && ctx.cases[e.caseIds.items[i].s].split == "holdout")
    && (forall i, j :: 0 <= i < j < |e.caseIds.items| ==> e.caseIds.items[i] != e.caseIds.items[j])
    && (e.purpose.s == "owner_labeling" ==> e.candidateSha == Some(Null))
    && (e.purpose.s != "owner_labeling" ==>
          && e.candidateSha == Some(Str(ctx.candidateSha)) && AccessTime(e, ctx) >= ctx.frozenAt
          && (e.purpose.s == "release_candidate_assessment" || (e.purpose.s == "independent_review" && ctx.mode != Internal)))
  }

  function AccessTime(e: AccessEvent, ctx: Context): int {
    if Dated(e.accessedAt, ctx.read) then ctx.read.instant(e.accessedAt.s).value else 0
  }

  // Assessments are by the primary reviewer of each case, second reviews by the
  // independent one.
  predicate ByItsReviewers(e: AccessEvent, labels: map<string, LabelRecord>) {
    e.purpose.Str? && e.caseIds.Arr? && forall i :: 0 <= i < |e.caseIds.items| && e.caseIds.items[i].Str? ==>
      && (e.purpose.s == "release_candidate_assessment" ==>
            && e.caseIds.items[i].s in labels && labels[e.caseIds.items[i].s].primary.Mapping?
            && labels[e.caseIds.items[i].s].primary.m.reviewerId == e.accessor)
      && (e.purpose.s == "independent_review" ==>
            && e.caseIds.items[i].s in labels && labels[e.caseIds.items[i].s].independent.Mapping?
            && labels[e.caseIds.items[i].s].independent.m.reviewerId == e.accessor)
  }

  lemma PurposesDiffer()
    ensures "owner_labeling" != "release_candidate_assessment" && "owner_labeling" != "independent_review"
    ensures "release_candidate_assessment" != "independent_review"
  {
    assert "owner_labeling"[0] != "release_candidate_assessment"[0] && "owner_labeling"[0] != "independent_review"[0];
    assert "release_candidate_assessment"[0] != "independent_review"[0];
  }

  lemma PurposeExactly(j: Json)
    ensures PurposeOf(j) == Some(OwnerLabeling) <==> j.Str? && j.s == "owner_labeling"
    ensures PurposeOf(j) == Some(CandidateAssessment) <==> j.Str? && j.s == "release_candidate_assessment"
    ensures PurposeOf(j) == Some(IndependentReview) <==> j.Str? && j.s == "independent_review"
  {
    PurposesDiffer();
  }

  lemma AccessExactly(e: AccessEvent, labels: map<string, LabelRecord>, ctx: Context)
    ensures EventAccepted(e, labels, ctx) <==> LawfulAccess(e, ctx) && ByItsReviewers(e, labels)
  {
    PurposesDiffer();
    PurposeExactly(e.purpose);
    if EventAccepted(e, labels, ctx) {
      forall i | 0 <= i < |e.caseIds.items| ensures CaseAccessAccepted(e, e.caseIds.items[i], labels, ctx) {
      }
    }
    if LawfulAccess(e, ctx) && ByItsReviewers(e, labels) {
      forall i | 0 <= i < |e.caseIds.items| ensures CaseAccessAccepted(e, e.caseIds.items[i], labels, ctx) {
      }
    }
  }

  // The label of a case, as the manifest lists it.
  ghost predicate LabelOf(m: Manifest, id: string, l: LabelRecord) {
    m.labels.List? && Mapping(l) in m.labels.items && l.caseId == Str(id)
  }

  // The event opened the case for this candidate, after its freeze, and was by
  // the reviewer of this review.
  ghost predicate Opened(m: Manifest, e: AccessEvent, id: string, purpose: string, review: Found<ReviewRecord>, read: Reader) {
    && e.purpose == Str(purpose) && e.caseIds.Arr? && Str(id) in e.caseIds.items
    && m.candidate.Mapping? && e.candidateSha == Some(m.candidate.m.commitSha)
    && Dated(e.accessedAt, read) && Dated(m.candidate.m.frozenAt, read)
    && read.instant(m.candidate.m.frozenAt.s).value <= read.instant(e.accessedAt.s).value
    && review.Mapping? && e.accessor == review.m.reviewerId
  }

  lemma OpenedFor(m: Manifest, sel: Selection, suite: Suite, read: Reader, id: string, purpose: Purpose, text: string)
    returns (e: AccessEvent, l: LabelRecord)
    requires Accepted(m, sel, suite, read) && SecondSchema(m) && purpose != OwnerLabeling
    requires text == if purpose == CandidateAssessment then "release_candidate_assessment" else "independent_review"
    requires id in AccessedFor(m.holdoutAccess.m.events.items, purpose)
    ensures m.holdoutAccess.Mapping? && m.holdoutAccess.m.events.List? && Mapping(e) in m.holdoutAccess.m.events.items
    ensures LabelOf(m, id, l)
    ensures Opened(m, e, id, text, if purpose == CandidateAssessment then l.primary else l.independent, read)
  {
    var (ctx, events) := (ContextOf(m, sel, suite, read), m.holdoutAccess.m.events.items);
    var labels := Table(m.labels.items, LabelId, read);
    var i := AccessForCase(events, purpose, id);
    e := events[i].m;
    PurposesDiffer();
    PurposeExactly(e.purpose);
    AccessExactly(e, labels, ctx);
    var k :| 0 <= k < |e.caseIds.items| && e.caseIds.items[k] == Str(id);
    assert e.caseIds.items[k].s == id && id in labels;
    var j := TableKey(m.labels.items, LabelId, read, id);
    l := m.labels.items[j].m;
  }

  // Under the second schema, every selected holdout case was opened for the
  // assessment of this candidate by its primary reviewer; in independent mode
  // also for the second review, by its independent reviewer.
  lemma SelectedHoldoutsWereOpened(m: Manifest, sel: Selection, suite: Suite, read: Reader, id: string)
    returns (assessment: AccessEvent, l: LabelRecord)
    requires Accepted(m, sel, suite, read) && m.schemaVersion == Str("release-review-manifest/v2")
    requires sel.selectedCases.List? && Mapping(SelectedCase(Str(id))) in sel.selectedCases.items
    requires id in suite.cases && suite.cases[id].split == "holdout"
    ensures m.holdoutAccess.Mapping? && m.holdoutAccess.m.events.List? && LabelOf(m, id, l)
    ensures Mapping(assessment) in m.holdoutAccess.m.events.items
    ensures Opened(m, assessment, id, "release_candidate_assessment", l.primary, read)
    ensures !SaysInternal(m) ==>
              exists second, other :: Mapping(second) in m.holdoutAccess.m.events.items && LabelOf(m, id, other)
                && Opened(m, second, id, "independent_review", other.independent, read)
  {
    ModeIsDisclosed(m, sel, suite, read);
    var ctx := ContextOf(m, sel, suite, read);
    var k :| 0 <= k < |sel.selectedCases.items| && sel.selectedCases.items[k] == Mapping(SelectedCase(Str(id)));
    TableItem(sel.selectedCases.items, SelectedId, read, k);
    assert id in SelectedHoldouts(ctx);
    assessment, l := OpenedFor(m, sel, suite, read, id, CandidateAssessment, "release_candidate_assessment");
    if !SaysInternal(m) {
      var second, other := OpenedFor(m, sel, suite, read, id, IndependentReview, "independent_review");
    }
  }

  // ---- Labels ----

  // A review by an eligible person who attested to be independent, or not, as
  // the role asks.
  predicate LawfulReview(r: ReviewRecord, ctx: Context, independent: bool) {
    && Written(r.revision, ctx.read) && Written(r.sha256, ctx.read) && LowerHex(r.sha256.s, 64)
    && Written(r.reviewerId, ctx.read) && Written(r.attestationId, ctx.read) && Dated(r.lockedAt, ctx.read)
    && r.attestationId.s in ctx.attestations
    && var a := ctx.attestations[r.attestationId.s];
       a.reviewerId == r.reviewerId && a.eligible == Bool(true) && a.independent == Bool(independent)
  }

  lemma ReviewExactly(r: ReviewRecord, ctx: Context, independent: bool)
    ensures ReviewAccepted(r, ctx, independent) <==> LawfulReview(r, ctx, independent)
  {
    if r.sha256.Str? { HexIsLowerHex(r.sha256.s, 64); }
  }

  // Blind, without sight of the output, by another person, and in a holdout
  // case not before the freeze.
  predicate LawfulSecond(second: ReviewRecord, primary: ReviewRecord, split: string, ctx: Context) {
    && second.blind == Bool(true) && second.outputVisible == Bool(false)
    && LawfulReview(second, ctx, true) && second.reviewerId != primary.reviewerId
    && (split == "holdout" ==> ctx.frozenAt <= ctx.read.instant(second.lockedAt.s).value)
  }

  // Different disagreement identifiers, all written.
  predicate Identifiers(j: Json, read: Reader) {
    && j.Arr? && (forall i :: 0 <= i < |j.items| ==> Written(j.items[i], read))
    && forall i, k :: 0 <= i < k < |j.items| ==> j.items[i] != j.items[k]
  }

  // Without a dispute the final revision is one of the reviews; a dispute is
  // resolved by a third, independent person with a reason, whose revision is final.
  predicate LawfulOutcome(l: LabelRecord, ctx: Context)
    requires l.primary.Mapping?
  {
    && l.disagreement.Mapping? && Written(l.disagreement.m.status, ctx.read)
    && Identifiers(l.disagreement.m.materialIds, ctx.read) && Written(l.finalRevision, ctx.read)
    && var disputed := l.disagreement.m.materialIds.items != [];
       (l.disagreement.m.status.s == "none" && !disputed && l.adjudication == Nothing
        && (l.finalRevision == l.primary.m.revision
            || (l.independent.Mapping? && l.finalRevision == l.independent.m.revision)))
       || (l.disagreement.m.status.s == "resolved" && disputed && l.independent.Mapping? && l.adjudication.Mapping?
           && LawfulReview(l.adjudication.m, ctx, true)
           && l.adjudication.m.reviewerId != l.primary.m.reviewerId
           && l.adjudication.m.reviewerId != l.independent.m.reviewerId
           && Written(l.adjudication.m.rationale, ctx.read) && l.finalRevision == l.adjudication.m.revision)
  }

  predicate LawfulLabel(l: LabelRecord, id: string, ctx: Context)
    requires id in ctx.cases
  {
    && Written(l.split, ctx.read) && l.split.s == ctx.cases[id].split
    && Written(l.category, ctx.read) && l.category.s == ctx.cases[id].category
    && l.primary.Mapping? && LawfulReview(l.primary.m, ctx, false)
    && (l.independent == Nothing
        || (l.independent.Mapping? && LawfulSecond(l.independent.m, l.primary.m, ctx.cases[id].split, ctx)))
    && (ctx.mode == Internal ==> l.independent == Nothing && l.adjudication == Nothing)
    && (ctx.mode == Independent && id in ctx.selected ==> l.independent != Nothing)
    && LawfulOutcome(l, ctx)
  }

  lemma IdentifiersExactly(j: Json, read: Reader)
    ensures DistinctTexts(j, read) <==> Identifiers(j, read)
  {
    if DistinctTexts(j, read) {
      forall i | 0 <= i < |j.items| ensures Written(j.items[i], read) {
        assert j.items[i] in j.items;
        assert Text(j.items[i], read).Some?;
      }
    }
    if Identifiers(j, read) {
      forall v | v in j.items ensures Text(v, read).Some? {
        var i :| 0 <= i < |j.items| && j.items[i] == v;
        assert Written(j.items[i], read);
      }
    }
  }

  lemma OutcomeExactly(l: LabelRecord, ctx: Context)
    requires l.primary.Mapping?
    ensures DisagreementAccepted(l, ctx) <==> LawfulOutcome(l, ctx)
  {
    assert "none" != "resolved" by { assert |"none"| != |"resolved"|; }
    if l.disagreement.Mapping? { IdentifiersExactly(l.disagreement.m.materialIds, ctx.read); }
    if l.adjudication.Mapping? { ReviewExactly(l.adjudication.m, ctx, true); }
  }

  // A label is accepted exactly when it is lawful.
  lemma LabelExactly(l: LabelRecord, id: string, ctx: Context)
    requires id in ctx.cases
    ensures LabelAccepted(l, id, ctx) <==> LawfulLabel(l, id, ctx)
  {
    if l.primary.Mapping? {
      ReviewExactly(l.primary.m, ctx, false);
      OutcomeExactly(l, ctx);
      if l.independent.Mapping? { ReviewExactly(l.independent.m, ctx, true); }
    }
  }

  // In independent mode every selected case has a label with a lawful second
  // review; in internal mode no label has one, nor an adjudication.
  lemma SecondReviewsFitTheMode(m: Manifest, sel: Selection, suite: Suite, read: Reader, i: nat)
    requires Accepted(m, sel, suite, read)
    ensures m.labels.List? && (i < |m.labels.items| ==> m.labels.items[i].Mapping?)
    ensures i < |m.labels.items| ==>
              var l := m.labels.items[i].m;
              var ctx := ContextOf(m, sel, suite, read);
              && l.caseId.Str? && l.caseId.s in suite.cases && LawfulLabel(l, l.caseId.s, ctx)
              && (SaysInternal(m) ==> l.independent == Nothing && l.adjudication == Nothing)
              && (!SaysInternal(m) && l.caseId.s in ctx.selected ==>
                    && l.independent.Mapping? && l.primary.Mapping?
                    && LawfulSecond(l.independent.m, l.primary.m, suite.cases[l.caseId.s].split, ctx))
  {
    ModeIsDisclosed(m, sel, suite, read);
    if i < |m.labels.items| {
      var labels := Records(m.labels.items);
      assert labels[i] == m.labels.items[i].m && Known(labels[i].caseId, suite.cases);
      LabelExactly(labels[i], IdOf(labels[i]), ContextOf(m, sel, suite, read));
    }
  }
}
