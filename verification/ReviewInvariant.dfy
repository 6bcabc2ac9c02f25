// What every reachable review store satisfies.
module ReviewInvariant {
  import opened Basics
  import opened JsonTree
  import opened ReviewLabels
  import opened ReviewStore

  predicate Text(s: string) {
    s != "" && Stripped(s)
  }

  predicate SameCase(a: Label, b: Label) {
    && SameSubject(a, b.caseId, b.subjectKind, b.subjectId)
    && a.caseSha256 == b.caseSha256 && a.datasetVersion == b.datasetVersion && a.rubricVersion == b.rubricVersion
  }

  // Reviews are linked to earlier reviews of the same subject by other people.
  ghost predicate Linked(labels: seq<Label>, i: nat)
    requires i < |labels|
  {
    var l := labels[i];
    match l.role
    case Primary =>
      l.primaryLabelId.None? && l.independentLabelId.None? && l.candidateSha256.Some? && l.packetSha256.Some?
    case Independent =>
      && l.candidateSha256.None? && l.packetSha256.Some? && l.independentLabelId.None?
      && l.primaryLabelId.Some? && l.primaryLabelId.value < i
      && var p := labels[l.primaryLabelId.value];
         p.role.Primary? && SameCase(p, l) && p.reviewerId != l.reviewerId
    case Adjudicated =>
      && l.candidateSha256.None? && l.packetSha256.None?
      && l.independentLabelId.Some? && l.independentLabelId.value < i
      && var q := labels[l.independentLabelId.value];
         && q.role.Independent? && SameCase(q, l) && q.primaryLabelId == l.primaryLabelId && q.reviewerId != l.reviewerId
         && l.primaryLabelId.Some? && l.primaryLabelId.value < i
         && labels[l.primaryLabelId.value].reviewerId != l.reviewerId
  }

  // A revision follows the latest earlier label of its subject and role.
  ghost predicate Chained(labels: seq<Label>, i: nat)
    requires i < |labels|
  {
    var l := labels[i];
    match LatestLabel(labels[..i], l.caseId, l.subjectKind, l.subjectId, l.role)
    case None => l.revisionNumber == 1 && l.parentRevisionId == None
    case Some(prior) =>
      && l.revisionNumber == prior.revisionNumber + 1 && l.parentRevisionId == Some(prior.id)
      && l.content != prior.content
  }

  ghost predicate Attested(store: Store, l: Label) {
    && l.attestationId < |store.attestations|
    && var a := store.attestations[l.attestationId];
       && a.eligible && a.reviewerId == l.reviewerId
       && a.datasetVersion == l.datasetVersion && a.rubricVersion == l.rubricVersion
       && (l.role.Independent? ==> a.independent)
  }

  ghost predicate LabelOk(store: Store, i: nat)
    requires i < |store.labels|
  {
    var l := store.labels[i];
    && l.id == i
    && Text(l.caseId) && Text(l.subjectId) && Text(l.reviewerId)
    && Text(l.datasetVersion) && Text(l.rubricVersion) && Stripped(l.caseSha256)
    && l.content.Kind() == l.subjectKind && l.content.Consistent()
    && Attested(store, l) && Linked(store.labels, i) && Chained(store.labels, i)
  }

  ghost predicate DisagreementOk(store: Store, i: nat)
    requires i < |store.disagreements|
  {
    var d := store.disagreements[i];
    && d.id == i
    && d.primaryLabelId < |store.labels| && d.independentLabelId < |store.labels|
    && store.labels[d.independentLabelId].role.Independent?
    && store.labels[d.independentLabelId].primaryLabelId == Some(d.primaryLabelId)
  }

  // The disagreements of a pair are recorded together: none, or all of them.
  ghost predicate PairRecorded(store: Store, p: nat, q: nat)
    requires p < |store.labels| && q < |store.labels|
  {
    var found := DisagreementsOf(store.disagreements, p, q);
    found == [] || exists next: nat :: found == AllDisagreements(store.labels[p], store.labels[q], next)
  }

  ghost function AllDisagreements(p: Label, q: Label, next: nat): seq<Disagreement> {
    NewDisagreements(p, q, SortedTexts(DifferingPathsOf(p, q)), next)
  }

  ghost predicate AdjudicationOk(store: Store, i: nat)
    requires i < |store.adjudications|
  {
    var a := store.adjudications[i];
    && a.id == i && a.disagreementId < |store.disagreements| && a.adjudicatedLabelId < |store.labels|
    && var d := store.disagreements[a.disagreementId];
       var l := store.labels[a.adjudicatedLabelId];
       && d.material && l.role.Adjudicated?
       && l.primaryLabelId == Some(d.primaryLabelId) && l.independentLabelId == Some(d.independentLabelId)
       && a.adjudicatorId == l.reviewerId && Text(a.rationale)
  }

  predicate SamePair(c: Disagreement, d: Disagreement) {
    c.primaryLabelId == d.primaryLabelId && c.independentLabelId == d.independentLabelId
  }

  // A disagreement is adjudicated once, and a pair to a single label.
  ghost predicate AdjudicatedOnce(store: Store) {
    forall i, j :: 0 <= i < j < |store.adjudications| ==>
      var (a, b) := (store.adjudications[i], store.adjudications[j]);
      && a.disagreementId != b.disagreementId
      && (a.disagreementId < |store.disagreements| && b.disagreementId < |store.disagreements|
          && SamePair(store.disagreements[a.disagreementId], store.disagreements[b.disagreementId]) ==>
            a.adjudicatedLabelId == b.adjudicatedLabelId)
  }

  ghost predicate AttestationsSound(store: Store) {
    forall a :: a in store.attestations ==> Text(a.reviewerId) && Text(a.datasetVersion) && Text(a.rubricVersion)
  }

  ghost predicate LabelsSound(store: Store) {
    forall i :: 0 <= i < |store.labels| ==> LabelOk(store, i)
  }

  ghost predicate DisagreementsSound(store: Store) {
    forall i :: 0 <= i < |store.disagreements| ==> DisagreementOk(store, i)
  }

  ghost predicate PairsSound(store: Store) {
    forall p, q :: 0 <= p < |store.labels| && 0 <= q < |store.labels| ==> PairRecorded(store, p, q)
  }

  ghost predicate AdjudicationsSound(store: Store) {
    && (forall i :: 0 <= i < |store.adjudications| ==> AdjudicationOk(store, i))
    && AdjudicatedOnce(store)
  }

  ghost predicate Sound(store: Store) {
    && AttestationsSound(store) && LabelsSound(store) && DisagreementsSound(store)
    && PairsSound(store) && AdjudicationsSound(store)
  }

  // ---- What the listings return ----

  lemma {:induction false} DisagreementsOfMembers(ds: seq<Disagreement>, p: nat, q: nat, d: Disagreement)
    ensures d in DisagreementsOf(ds, p, q) <==> d in ds && d.primaryLabelId == p && d.independentLabelId == q
  {
    if ds != [] {
      DisagreementsOfMembers(ds[..|ds| - 1], p, q, d);
      assert ds == ds[..|ds| - 1] + [ds[|ds| - 1]];
    }
  }

  lemma {:induction false} MaterialOnlyMembers(ds: seq<Disagreement>, d: Disagreement)
    ensures d in MaterialOnly(ds) <==> d in ds && d.material
  {
    if ds != [] {
      MaterialOnlyMembers(ds[..|ds| - 1], d);
      assert ds == ds[..|ds| - 1] + [ds[|ds| - 1]];
    }
  }

  lemma {:induction false} AdjudicationsOfMembers(adjudications: seq<Adjudication>, d: nat, a: Adjudication)
    ensures a in AdjudicationsOf(adjudications, d) <==> a in adjudications && a.disagreementId == d
  {
    if adjudications != [] {
      var rest := adjudications[..|adjudications| - 1];
      AdjudicationsOfMembers(rest, d, a);
      assert adjudications == rest + [adjudications[|adjudications| - 1]];
    }
  }

  // The latest label is one of the subject and role that none exceeds.
  lemma {:induction false} LatestLabelIsLatest(labels: seq<Label>, caseId: string, kind: SubjectKind, subjectId: string, role: Role)
    ensures match LatestLabel(labels, caseId, kind, subjectId, role)
            case None => forall l :: l in labels ==> !(SameSubject(l, caseId, kind, subjectId) && l.role == role)
            case Some(m) =>
              && m in labels && SameSubject(m, caseId, kind, subjectId) && m.role == role
              && forall l :: l in labels && SameSubject(l, caseId, kind, subjectId) && l.role == role ==> LabelLe(l, m)
  {
    if labels != [] {
      LatestLabelIsLatest(labels[..|labels| - 1], caseId, kind, subjectId, role);
      assert labels == labels[..|labels| - 1] + [labels[|labels| - 1]];
    }
  }

  // ---- Frames: records keep their properties as evidence is added ----

  lemma LabelStaysOk(store: Store, after: Store, i: nat)
    requires Extends(store, after) && i < |store.labels| && LabelOk(store, i)
    ensures LabelOk(after, i)
  {
    assert after.labels[..i] == store.labels[..i];
    assert forall j :: 0 <= j < |store.labels| ==> after.labels[j] == store.labels[j];
  }

  lemma LabelIdentity(store: Store, i: nat)
    requires LabelsSound(store) && i < |store.labels|
    ensures store.labels[i].id == i
  {
    assert LabelOk(store, i);
  }

  lemma LabelIsChained(store: Store, i: nat)
    requires LabelsSound(store) && i < |store.labels|
    ensures Chained(store.labels, i)
  {
    assert LabelOk(store, i);
  }

  lemma LabelsStaySound(store: Store, after: Store)
    requires LabelsSound(store) && Extends(store, after) && after.labels == store.labels
    ensures LabelsSound(after)
  {
    forall i | 0 <= i < |store.labels| ensures LabelOk(after, i) {
      LabelStaysOk(store, after, i);
    }
  }

  lemma DisagreementsStaySound(store: Store, after: Store)
    requires DisagreementsSound(store) && Extends(store, after) && after.disagreements == store.disagreements
    ensures DisagreementsSound(after)
  {
    forall i | 0 <= i < |after.disagreements| ensures DisagreementOk(after, i) {
      assert DisagreementOk(store, i);
    }
  }

  lemma NoPairOfNewLabel(store: Store, p: nat, q: nat)
    requires DisagreementsSound(store)
    requires p >= |store.labels| || q >= |store.labels|
    ensures DisagreementsOf(store.disagreements, p, q) == []
  {
    forall d | d in store.disagreements ensures !(d.primaryLabelId == p && d.independentLabelId == q) {
      var i :| 0 <= i < |store.disagreements| && store.disagreements[i] == d;
      assert DisagreementOk(store, i);
    }
    DisagreementsOfUniform(store.disagreements, p, q, false);
  }

  lemma PairsStaySound(store: Store, after: Store)
    requires DisagreementsSound(store) && PairsSound(store)
    requires Extends(store, after) && after.disagreements == store.disagreements
    ensures PairsSound(after)
  {
    forall p, q | 0 <= p < |after.labels| && 0 <= q < |after.labels| ensures PairRecorded(after, p, q) {
      if p >= |store.labels| || q >= |store.labels| {
        NoPairOfNewLabel(store, p, q);
      } else {
        assert PairRecorded(store, p, q);
      }
    }
  }

  lemma AdjudicationsStaySound(store: Store, after: Store)
    requires AdjudicationsSound(store) && Extends(store, after) && after.adjudications == store.adjudications
    ensures AdjudicationsSound(after)
  {
    forall i | 0 <= i < |after.adjudications|
      ensures AdjudicationOk(after, i)
      ensures var d := store.adjudications[i].disagreementId;
              d < |store.disagreements| && after.disagreements[d] == store.disagreements[d]
    {
      assert AdjudicationOk(store, i);
    }
  }

  lemma AppendLabelKeepsSound(store: Store, l: Label)
    requires Sound(store)
    requires LabelOk(store.(labels := store.labels + [l]), |store.labels|)
    ensures Sound(store.(labels := store.labels + [l]))
  {
    var after := store.(labels := store.labels + [l]);
    forall i | 0 <= i < |store.labels| ensures LabelOk(after, i) {
      LabelStaysOk(store, after, i);
    }
    DisagreementsStaySound(store, after);
    PairsStaySound(store, after);
    AdjudicationsStaySound(store, after);
  }

  lemma AttestKeepsSound(store: Store, a: Attestation)
    requires Sound(store) && Text(a.reviewerId) && Text(a.datasetVersion) && Text(a.rubricVersion)
    ensures Sound(store.(attestations := store.attestations + [a]))
  {
    var after := store.(attestations := store.attestations + [a]);
    LabelsStaySound(store, after);
    DisagreementsStaySound(store, after);
    PairsStaySound(store, after);
    AdjudicationsStaySound(store, after);
  }

  lemma {:induction false} DisagreementsOfConcat(ds: seq<Disagreement>, es: seq<Disagreement>, p: nat, q: nat)
    ensures DisagreementsOf(ds + es, p, q) == DisagreementsOf(ds, p, q) + DisagreementsOf(es, p, q)
  {
    if es == [] {
      assert ds + es == ds;
    } else {
      DisagreementsOfConcat(ds, es[..|es| - 1], p, q);
      assert (ds + es)[..|ds + es| - 1] == ds + es[..|es| - 1];
    }
  }

  lemma {:induction false} DisagreementsOfUniform(ds: seq<Disagreement>, p: nat, q: nat, own: bool)
    requires forall d :: d in ds ==> ((d.primaryLabelId == p && d.independentLabelId == q) <==> own)
    ensures DisagreementsOf(ds, p, q) == if own then ds else []
  {
    if ds != [] {
      assert ds[|ds| - 1] in ds;
      DisagreementsOfUniform(ds[..|ds| - 1], p, q, own);
      assert ds == ds[..|ds| - 1] + [ds[|ds| - 1]];
    }
  }

  lemma AppendDisagreementsKeepsSound(store: Store, p: nat, q: nat)
    requires Sound(store) && p < |store.labels| && q < |store.labels|
    requires store.labels[q].role.Independent? && store.labels[q].primaryLabelId == Some(p)
    requires DisagreementsOf(store.disagreements, p, q) == []
    ensures var recorded := AllDisagreements(store.labels[p], store.labels[q], |store.disagreements|);
            var after := store.(disagreements := store.disagreements + recorded);
            Sound(after) && DisagreementsOf(after.disagreements, p, q) == recorded
  {
    var recorded := AllDisagreements(store.labels[p], store.labels[q], |store.disagreements|);
    var after := store.(disagreements := store.disagreements + recorded);
    assert LabelOk(store, p) && LabelOk(store, q);
    NewDisagreementsOfPair(store.labels[p], store.labels[q],
                           SortedTexts(DifferingPathsOf(store.labels[p], store.labels[q])), |store.disagreements|);
    RecordedPairs(store, recorded, p, q);
    RecordedDisagreements(store, recorded, p, q);
    AppendedDisagreementsFrame(store, after);
  }

  lemma AppendedDisagreementsFrame(store: Store, after: Store)
    requires Sound(store) && Extends(store, after) && after.labels == store.labels
    requires after.attestations == store.attestations && after.adjudications == store.adjudications
    requires DisagreementsSound(after) && PairsSound(after)
    ensures Sound(after)
  {
    LabelsStaySound(store, after);
    AdjudicationsStaySound(store, after);
  }

  lemma NewDisagreementsOfPair(p: Label, q: Label, paths: seq<string>, next: nat)
    ensures var ds := NewDisagreements(p, q, paths, next);
            && (forall k :: 0 <= k < |ds| ==>
                  ds[k].id == next + k && ds[k].primaryLabelId == p.id && ds[k].independentLabelId == q.id)
            && (forall d :: d in ds ==> d.primaryLabelId == p.id && d.independentLabelId == q.id)
  {
    forall k | 0 <= k < |paths|
      ensures NewDisagreements(p, q, paths, next)[k] == DisagreementAt(p, q, paths[k], next + k)
    {
      DifferencesAt(p, q, FlatOf(p), FlatOf(q), MaterialPaths(p.subjectKind), paths, next, k);
    }
  }

  lemma RecordedDisagreements(store: Store, recorded: seq<Disagreement>, p: nat, q: nat)
    requires DisagreementsSound(store) && p < |store.labels| && q < |store.labels|
    requires store.labels[q].role.Independent? && store.labels[q].primaryLabelId == Some(p)
    requires forall k :: 0 <= k < |recorded| ==>
      recorded[k].id == |store.disagreements| + k && recorded[k].primaryLabelId == p && recorded[k].independentLabelId == q
    ensures DisagreementsSound(store.(disagreements := store.disagreements + recorded))
  {
    var after := store.(disagreements := store.disagreements + recorded);
    forall i | 0 <= i < |after.disagreements| ensures DisagreementOk(after, i) {
      if i < |store.disagreements| {
        assert DisagreementOk(store, i);
      } else {
        assert after.disagreements[i] == recorded[i - |store.disagreements|];
      }
    }
  }

  lemma RecordedPairs(store: Store, recorded: seq<Disagreement>, p: nat, q: nat)
    requires PairsSound(store) && p < |store.labels| && q < |store.labels|
    requires forall d :: d in recorded ==> d.primaryLabelId == p && d.independentLabelId == q
    requires DisagreementsOf(store.disagreements, p, q) == []
    requires exists next: nat :: recorded == AllDisagreements(store.labels[p], store.labels[q], next)
    ensures PairsSound(store.(disagreements := store.disagreements + recorded))
    ensures DisagreementsOf(store.disagreements + recorded, p, q) == recorded
  {
    var after := store.(disagreements := store.disagreements + recorded);
    forall p', q' | 0 <= p' < |after.labels| && 0 <= q' < |after.labels| ensures PairRecorded(after, p', q') {
      DisagreementsOfConcat(store.disagreements, recorded, p', q');
      DisagreementsOfUniform(recorded, p', q', p' == p && q' == q);
      assert PairRecorded(store, p', q');
    }
    DisagreementsOfConcat(store.disagreements, recorded, p, q);
    DisagreementsOfUniform(recorded, p, q, true);
  }

  // ---- Each operation ----

  lemma AttestationIsSound(store: Store, reviewerId: string, datasetVersion: string, rubricVersion: string,
                           summary: string, eligible: bool, independent: bool)
    requires Sound(store)
    ensures Sound(RecordAttestation(store, reviewerId, datasetVersion, rubricVersion, summary, eligible, independent).0)
  {
    if RecordAttestation(store, reviewerId, datasetVersion, rubricVersion, summary, eligible, independent).1.Ok? {
      AttestKeepsSound(store, Attestation(Strip(reviewerId), Strip(datasetVersion), Strip(rubricVersion),
                                          Strip(summary), eligible, independent));
    }
  }

  predicate AttestedDraft(a: Attestation, d: Draft) {
    && a.eligible && a.reviewerId == Strip(d.reviewerId)
    && a.datasetVersion == d.datasetVersion && a.rubricVersion == d.rubricVersion
    && (d.role.Independent? ==> a.independent)
  }

  // What a draft must bring so that its label fits into the store.
  ghost predicate DraftFits(store: Store, d: Draft) {
    && d.attestationId < |store.attestations|
    && AttestedDraft(store.attestations[d.attestationId], d)
    && match d.role
       case Primary => d.primaryLabelId.None? && d.independentLabelId.None?
       case Independent =>
         && d.independentLabelId.None? && d.primaryLabelId.Some? && d.primaryLabelId.value < |store.labels|
         && var p := store.labels[d.primaryLabelId.value];
            p.role.Primary? && DraftOf(d, p) && p.reviewerId != Strip(d.reviewerId)
       case Adjudicated =>
         && d.independentLabelId.Some? && d.independentLabelId.value < |store.labels|
         && var q := store.labels[d.independentLabelId.value];
            && q.role.Independent? && DraftOf(d, q) && q.primaryLabelId == d.primaryLabelId
            && q.reviewerId != Strip(d.reviewerId)
            && d.primaryLabelId.Some? && d.primaryLabelId.value < |store.labels|
            && store.labels[d.primaryLabelId.value].reviewerId != Strip(d.reviewerId)
  }

  predicate DraftOf(d: Draft, l: Label) {
    && d.caseId == l.caseId && d.caseSha256 == l.caseSha256 && d.subjectKind == l.subjectKind
    && d.subjectId == l.subjectId && d.datasetVersion == l.datasetVersion && d.rubricVersion == l.rubricVersion
  }

  lemma CreatedLabelIsOk(store: Store, d: Draft, now: int)
    requires Sound(store) && DraftFits(store, d) && CreateLabel(store, d, now).1.Ok?
    ensures var (after, r) := CreateLabel(store, d, now);
            after == store.(labels := store.labels + [r.value]) && LabelOk(after, |store.labels|)
  {
    var (after, r) := CreateLabel(store, d, now);
    assert after.labels[..|store.labels|] == store.labels;
    assert store.attestations[d.attestationId] in store.attestations;
    if d.primaryLabelId.Some? { assert LabelOk(store, d.primaryLabelId.value); }
    if d.independentLabelId.Some? { assert LabelOk(store, d.independentLabelId.value); }
  }

  lemma CreateLabelIsSound(store: Store, d: Draft, now: int)
    requires Sound(store) && DraftFits(store, d)
    ensures Sound(CreateLabel(store, d, now).0)
  {
    if CreateLabel(store, d, now).1.Ok? {
      CreatedLabelIsOk(store, d, now);
      AppendLabelKeepsSound(store, CreateLabel(store, d, now).1.value);
    }
  }

  lemma SubmitPrimaryIsSound(store: Store, r: PrimaryReview, now: int)
    requires Sound(store)
    ensures Sound(SubmitPrimary(store, r, now).0)
  {
    var attested := AttestationFor(store, r.attestationId, r.reviewerId, r.datasetVersion, r.rubricVersion, false);
    if attested.Ok? {
      CreateLabelIsSound(store, Draft(
        r.caseId, r.caseSha256, r.datasetVersion, r.rubricVersion, r.subjectKind, r.subjectId, Primary,
        r.reviewerId, r.attestationId, r.labels, r.candidateSha256, Some(r.packetSha256), None, None), now);
    }
  }

  lemma SubmitIndependentIsSound(store: Store, r: IndependentReview, now: int)
    requires Sound(store)
    ensures Sound(SubmitIndependent(store, r, now).0)
  {
    var primary := LatestLabel(store.labels, r.caseId, r.subjectKind, r.subjectId, Primary);
    LatestLabelIsLatest(store.labels, r.caseId, r.subjectKind, r.subjectId, Primary);
    if primary.Some? {
      var p := primary.value;
      var i :| 0 <= i < |store.labels| && store.labels[i] == p;
      assert LabelOk(store, i);
      var attested := AttestationFor(store, r.attestationId, r.reviewerId, p.datasetVersion, p.rubricVersion, true);
      if attested.Ok? && Strip(r.reviewerId) != p.reviewerId {
        CreateLabelIsSound(store, Draft(
          p.caseId, p.caseSha256, p.datasetVersion, p.rubricVersion, p.subjectKind, p.subjectId, Independent,
          r.reviewerId, r.attestationId, r.labels, None, Some(r.packetSha256), Some(p.id), None), now);
      }
    }
  }

  lemma PairIsLinked(store: Store, independentId: nat)
    requires Sound(store) && LinkedPair(store, independentId).Ok?
    ensures var (p, q) := LinkedPair(store, independentId).value;
            && p.id < |store.labels| && q.id == independentId < |store.labels|
            && store.labels[p.id] == p && store.labels[q.id] == q
            && p.role.Primary? && q.role.Independent? && q.primaryLabelId == Some(p.id)
            && SameCase(p, q) && p.reviewerId != q.reviewerId
  {
    assert LabelOk(store, independentId);
    assert LabelOk(store, store.labels[independentId].primaryLabelId.value);
  }

  lemma RecordingIsSound(store: Store, independentId: nat)
    requires Sound(store)
    ensures Sound(RecordMaterialDisagreements(store, independentId).0)
  {
    if LinkedPair(store, independentId).Ok? {
      var (p, q) := LinkedPair(store, independentId).value;
      PairIsLinked(store, independentId);
      if DisagreementsOf(store.disagreements, p.id, q.id) == [] {
        AppendDisagreementsKeepsSound(store, p.id, q.id);
      }
    }
  }

  // `resolved` may be named by further adjudications of the pair of `d`.
  ghost predicate Resolves(store: Store, d: Disagreement, resolved: Label) {
    && resolved.id < |store.labels| && store.labels[resolved.id] == resolved
    && resolved.role.Adjudicated?
    && resolved.primaryLabelId == Some(d.primaryLabelId) && resolved.independentLabelId == Some(d.independentLabelId)
    && d.id < |store.disagreements| && store.disagreements[d.id] == d && d.material
    && forall i :: 0 <= i < |store.adjudications| ==>
         var a := store.adjudications[i];
         && a.disagreementId != d.id
         && (a.disagreementId < |store.disagreements| && SamePair(store.disagreements[a.disagreementId], d) ==>
               a.adjudicatedLabelId == resolved.id)
  }

  lemma AppendAdjudicationKeepsSound(store: Store, d: Disagreement, resolved: Label, rationale: string)
    requires Sound(store) && Resolves(store, d, resolved) && Text(rationale)
    ensures Sound(store.(adjudications := store.adjudications
      + [Adjudication(|store.adjudications|, d.id, resolved.id, resolved.reviewerId, rationale)]))
  {
    var a := Adjudication(|store.adjudications|, d.id, resolved.id, resolved.reviewerId, rationale);
    var after := store.(adjudications := store.adjudications + [a]);
    LabelsStaySound(store, after);
    DisagreementsStaySound(store, after);
    PairsStaySound(store, after);
    forall i | 0 <= i < |after.adjudications| ensures AdjudicationOk(after, i) {
      if i < |store.adjudications| { assert AdjudicationOk(store, i); }
    }
  }

  // The loop of an adjudication: disagreements of one pair, each pending.
  ghost predicate Pending(store: Store, material: seq<Disagreement>, resolved: Label) {
    && (forall i :: 0 <= i < |material| ==> Resolves(store, material[i], resolved))
    && (forall i, j :: 0 <= i < j < |material| ==> material[i].id != material[j].id && SamePair(material[i], material[j]))
  }

  lemma {:induction false} AdjudicationLoopIsSound(store: Store, material: seq<Disagreement>, resolved: Label,
                                                  adjudicatorId: string, rationales: map<nat, string>)
    requires Sound(store) && Pending(store, material, resolved) && Ids(material) <= rationales.Keys
    requires resolved.reviewerId == Strip(adjudicatorId)
    ensures var after := RecordAdjudications(store, material, resolved, adjudicatorId, rationales).0;
            Sound(after) && Extends(store, after) && after.labels == store.labels && after.disagreements == store.disagreements
    decreases |material|
  {
    if material != [] {
      assert material[0].id in Ids(material);
      var rationale := Strip(rationales[material[0].id]);
      if rationale != "" {
        AppendAdjudicationKeepsSound(store, material[0], resolved, rationale);
        var a := Adjudication(|store.adjudications|, material[0].id, resolved.id, Strip(adjudicatorId), rationale);
        var next := store.(adjudications := store.adjudications + [a]);
        assert Ids(material[1..]) <= Ids(material);
        forall i | 0 <= i < |material[1..]| ensures Resolves(next, material[1..][i], resolved) {
          assert material[1..][i] == material[i + 1];
          assert Resolves(store, material[i + 1], resolved) && SamePair(material[0], material[i + 1]);
        }
        AdjudicationLoopIsSound(next, material[1..], resolved, adjudicatorId, rationales);
      }
    }
  }

  ghost predicate MaterialRecord(store: Store, d: Disagreement, p: nat, q: nat) {
    && d.id < |store.disagreements| && store.disagreements[d.id] == d
    && d.material && d.primaryLabelId == p && d.independentLabelId == q
  }

  // Records of a pair, below `n`, each listed once.
  ghost predicate Listing(store: Store, ds: seq<Disagreement>, n: nat, p: nat, q: nat) {
    && (forall i :: 0 <= i < |ds| ==> ds[i].id < n && MaterialRecord(store, ds[i], p, q))
    && (forall i, j :: 0 <= i < j < |ds| ==> ds[i].id != ds[j].id)
  }

  lemma ListingExtends(store: Store, ds: seq<Disagreement>, d: Disagreement, n: nat, p: nat, q: nat)
    requires n > 0 && Listing(store, ds, n - 1, p, q) && MaterialRecord(store, d, p, q) && d.id == n - 1
    ensures Listing(store, ds + [d], n, p, q)
  {
  }

  lemma {:induction false} DisagreementsOfDistinct(store: Store, n: nat, p: nat, q: nat)
    requires DisagreementsSound(store) && n <= |store.disagreements|
    ensures Listing(store, MaterialOnly(DisagreementsOf(store.disagreements[..n], p, q)), n, p, q)
  {
    if n > 0 {
      DisagreementsOfDistinct(store, n - 1, p, q);
      var rest := DisagreementsOf(store.disagreements[..n - 1], p, q);
      var last := store.disagreements[n - 1];
      assert DisagreementOk(store, n - 1);
      if last.primaryLabelId == p && last.independentLabelId == q {
        assert DisagreementsOf(store.disagreements[..n], p, q) == rest + [last] by {
          assert store.disagreements[..n][..n - 1] == store.disagreements[..n - 1];
        }
        MaterialOnlyAppend(rest, [last]);
        if last.material { ListingExtends(store, MaterialOnly(rest), last, n, p, q); }
      } else {
        assert DisagreementsOf(store.disagreements[..n], p, q) == rest by {
          assert store.disagreements[..n][..n - 1] == store.disagreements[..n - 1];
        }
      }
    }
  }

  lemma MaterialOnlyAppend(ds: seq<Disagreement>, own: seq<Disagreement>)
    requires |own| <= 1
    ensures MaterialOnly(ds + own) == MaterialOnly(ds) + if own != [] && own[0].material then own else []
  {
    if own == [] {
      assert ds + own == ds;
    } else {
      assert (ds + own)[..|ds|] == ds && own == [own[0]];
    }
  }

  lemma MaterialOfPair(store: Store, p: nat, q: nat)
    requires Sound(store)
    ensures var ds := MaterialOnly(DisagreementsOf(store.disagreements, p, q));
            Listing(store, ds, |store.disagreements|, p, q)
  {
    DisagreementsOfDistinct(store, |store.disagreements|, p, q);
    assert store.disagreements[..|store.disagreements|] == store.disagreements;
  }

  ghost predicate AdjudicatesPair(store: Store, a: Adjudication, p: nat, q: nat) {
    && a.disagreementId < |store.disagreements|
    && var d := store.disagreements[a.disagreementId];
       d.primaryLabelId == p && d.independentLabelId == q
  }

  // Any adjudication of a pair is one of its material disagreements.
  lemma AdjudicationOfPair(store: Store, p: nat, q: nat, i: nat)
    requires Sound(store) && i < |store.adjudications| && AdjudicatesPair(store, store.adjudications[i], p, q)
    ensures SomeAdjudicated(store, MaterialOnly(DisagreementsOf(store.disagreements, p, q)))
  {
    var a := store.adjudications[i];
    assert AdjudicationOk(store, i);
    assert DisagreementOk(store, a.disagreementId);
    var d := store.disagreements[a.disagreementId];
    var material := MaterialOnly(DisagreementsOf(store.disagreements, p, q));
    DisagreementsOfMembers(store.disagreements, p, q, d);
    MaterialOnlyMembers(DisagreementsOf(store.disagreements, p, q), d);
    AdjudicationsOfMembers(store.adjudications, d.id, a);
    var k :| 0 <= k < |material| && material[k] == d;
    assert a in AdjudicationsOf(store.adjudications, material[k].id);
  }

  lemma AdjudicatedLabelIsPending(store: Store, p: nat, q: nat, material: seq<Disagreement>, resolved: Label)
    requires Sound(store) && material == MaterialOnly(DisagreementsOf(store.disagreements, p, q))
    requires !SomeAdjudicated(store, material)
    requires resolved.role.Adjudicated? && resolved.primaryLabelId == Some(p) && resolved.independentLabelId == Some(q)
    requires resolved.id == |store.labels|
    ensures Pending(store.(labels := store.labels + [resolved]), material, resolved)
  {
    MaterialOfPair(store, p, q);
    forall i | 0 <= i < |store.adjudications| ensures !AdjudicatesPair(store, store.adjudications[i], p, q) {
      if AdjudicatesPair(store, store.adjudications[i], p, q) {
        AdjudicationOfPair(store, p, q, i);
      }
    }
    forall k | 0 <= k < |material| ensures Resolves(store.(labels := store.labels + [resolved]), material[k], resolved) {
      UnadjudicatedIsPending(store, material[k], resolved, p, q);
    }
  }

  lemma UnadjudicatedIsPending(store: Store, d: Disagreement, resolved: Label, p: nat, q: nat)
    requires MaterialRecord(store, d, p, q)
    requires forall i :: 0 <= i < |store.adjudications| ==> !AdjudicatesPair(store, store.adjudications[i], p, q)
    requires resolved.role.Adjudicated? && resolved.primaryLabelId == Some(p) && resolved.independentLabelId == Some(q)
    requires resolved.id == |store.labels|
    ensures Resolves(store.(labels := store.labels + [resolved]), d, resolved)
  {
    forall i | 0 <= i < |store.adjudications|
      ensures store.adjudications[i].disagreementId != d.id
    {
      assert !AdjudicatesPair(store, store.adjudications[i], p, q);
    }
  }

  ghost predicate AdjudicationProceeds(store: Store, r: AdjudicationRequest) {
    && LinkedPair(store, r.independentId).Ok?
    && var (p, q) := LinkedPair(store, r.independentId).value;
       var material := MaterialOnly(DisagreementsOf(store.disagreements, p.id, q.id));
       && Strip(r.adjudicatorId) !in {p.reviewerId, q.reviewerId}
       && AttestationFor(store, r.attestationId, r.adjudicatorId, p.datasetVersion, p.rubricVersion, false).Ok?
       && material != [] && r.rationales.Keys == Ids(material) && !SomeAdjudicated(store, material)
  }

  lemma AdjudicationDraftFits(store: Store, r: AdjudicationRequest)
    requires Sound(store) && AdjudicationProceeds(store, r)
    ensures var (p, q) := LinkedPair(store, r.independentId).value;
            DraftFits(store, AdjudicationDraft(p, q, r))
  {
    PairIsLinked(store, r.independentId);
  }

  lemma AdjudicateIsSound(store: Store, r: AdjudicationRequest, now: int)
    requires Sound(store)
    ensures Sound(Adjudicate(store, r, now).0)
  {
    if AdjudicationProceeds(store, r) {
      var (p, q) := LinkedPair(store, r.independentId).value;
      PairIsLinked(store, r.independentId);
      AdjudicationDraftFits(store, r);
      var draft := AdjudicationDraft(p, q, r);
      var (next, filed) := CreateLabel(store, draft, now);
      if filed.Ok? {
        var material := MaterialOnly(DisagreementsOf(store.disagreements, p.id, q.id));
        CreateLabelIsSound(store, draft, now);
        CreatedLabelIsOk(store, draft, now);
        AdjudicatedLabelIsPending(store, p.id, q.id, material, filed.value);
        AdjudicationLoopIsSound(next, material, filed.value, r.adjudicatorId, r.rationales);
      }
    }
  }
}
