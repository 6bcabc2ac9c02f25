// What holds of every run of the review service.
module ReviewTheorems {
  import opened Basics
  import opened JsonTree
  import opened JsonPointer
  import opened ReviewLabels
  import opened ReviewStore
  import opened ReviewInvariant

  datatype Request =
    | Attest(reviewerId: string, datasetVersion: string, rubricVersion: string, summary: string,
             eligible: bool, independent: bool)
    | ReviewFirst(primary: PrimaryReview, at: int)
    | ReviewAgain(second: IndependentReview, at: int)
    | Compare(independentId: nat)
    | Settle(adjudication: AdjudicationRequest, at: int)
    | Finalize(independentId: nat)

  // The store after a request, whether or not it is rejected.
  ghost function After(store: Store, r: Request): Store {
    match r
    case Attest(reviewer, dataset, rubric, summary, eligible, independent) =>
      RecordAttestation(store, reviewer, dataset, rubric, summary, eligible, independent).0
    case ReviewFirst(primary, at) => SubmitPrimary(store, primary, at).0
    case ReviewAgain(second, at) => SubmitIndependent(store, second, at).0
    case Compare(id) => RecordMaterialDisagreements(store, id).0
    case Settle(adjudication, at) => Adjudicate(store, adjudication, at).0
    case Finalize(id) => RecordMaterialDisagreements(store, id).0
  }

  ghost function RunFrom(store: Store, requests: seq<Request>): Store {
    if requests == [] then store
    else After(RunFrom(store, requests[..|requests| - 1]), requests[|requests| - 1])
  }

  lemma AfterIsSound(store: Store, r: Request)
    requires Sound(store)
    ensures Sound(After(store, r))
  {
    match r
    case Attest(reviewer, dataset, rubric, summary, eligible, independent) =>
      AttestationIsSound(store, reviewer, dataset, rubric, summary, eligible, independent);
    case ReviewFirst(primary, at) => SubmitPrimaryIsSound(store, primary, at);
    case ReviewAgain(second, at) => SubmitIndependentIsSound(store, second, at);
    case Compare(id) => RecordingIsSound(store, id);
    case Settle(adjudication, at) => AdjudicateIsSound(store, adjudication, at);
    case Finalize(id) => RecordingIsSound(store, id);
  }

  lemma {:induction false} RunIsSound(store: Store, requests: seq<Request>)
    requires Sound(store)
    ensures Sound(RunFrom(store, requests))
  {
    if requests != [] {
      RunIsSound(store, requests[..|requests| - 1]);
      AfterIsSound(RunFrom(store, requests[..|requests| - 1]), requests[|requests| - 1]);
    }
  }

  // Every store the service can reach is sound.
  lemma EveryReachableStoreIsSound(requests: seq<Request>)
    ensures Sound(RunFrom(EMPTY, requests))
  {
    RunIsSound(EMPTY, requests);
  }

  // ---- Nothing is changed or removed ----

  lemma {:induction false} RecordingAdjudicationsAdds(store: Store, material: seq<Disagreement>, resolved: Label,
                                                      adjudicatorId: string, rationales: map<nat, string>)
    requires Ids(material) <= rationales.Keys
    ensures var after := RecordAdjudications(store, material, resolved, adjudicatorId, rationales).0;
            after == store.(adjudications := after.adjudications) && store.adjudications <= after.adjudications
    decreases |material|
  {
    if material != [] {
      assert material[0].id in Ids(material);
      var rationale := Strip(rationales[material[0].id]);
      if rationale != "" {
        assert Ids(material[1..]) <= Ids(material);
        var a := Adjudication(|store.adjudications|, material[0].id, resolved.id, Strip(adjudicatorId), rationale);
        RecordingAdjudicationsAdds(store.(adjudications := store.adjudications + [a]), material[1..], resolved,
                                   adjudicatorId, rationales);
      }
    }
  }

  // The request passes every check, up to the rationales themselves.
  ghost predicate Files(store: Store, r: AdjudicationRequest, now: int) {
    && AdjudicationProceeds(store, r)
    && var (p, q) := LinkedPair(store, r.independentId).value;
       CreateLabel(store, AdjudicationDraft(p, q, r), now).1.Ok?
  }

  // An adjudication files its label and then adds adjudications of the pair's
  // material disagreements, or leaves everything as it was.
  lemma AdjudicateEffect(store: Store, r: AdjudicationRequest, now: int)
    ensures !Files(store, r, now) ==> Adjudicate(store, r, now).0 == store && Adjudicate(store, r, now).1.Err?
    ensures Files(store, r, now) ==>
              var after := Adjudicate(store, r, now).0;
              && after.attestations == store.attestations && after.disagreements == store.disagreements
              && store.labels <= after.labels && store.adjudications <= after.adjudications
              && |after.labels| == |store.labels| + 1
  {
    if Files(store, r, now) {
      var (p, q) := LinkedPair(store, r.independentId).value;
      var (next, filed) := CreateLabel(store, AdjudicationDraft(p, q, r), now);
      var material := MaterialOnly(DisagreementsOf(store.disagreements, p.id, q.id));
      RecordingAdjudicationsAdds(next, material, filed.value, r.adjudicatorId, r.rationales);
    }
  }

  lemma AfterExtends(store: Store, r: Request)
    ensures Extends(store, After(store, r))
  {
    match r
    case Settle(adjudication, at) => AdjudicateEffect(store, adjudication, at);
    case Compare(id) =>
    case Finalize(id) =>
    case _ => SubmissionsOnlyAdd(store, r);
  }

  lemma SubmissionsOnlyAdd(store: Store, r: Request)
    requires r.Attest? || r.ReviewFirst? || r.ReviewAgain?
    ensures Extends(store, After(store, r))
    ensures After(store, r).disagreements == store.disagreements && After(store, r).adjudications == store.adjudications
  {
    match r
    case Attest(_, _, _, _, _, _) =>
    case ReviewFirst(primary, at) => SubmitPrimaryAdds(store, primary, at);
    case ReviewAgain(second, at) => SubmitIndependentAdds(store, second, at);
  }

  ghost predicate OnlyLabelsAdded(before: Store, after: Store) {
    before.labels <= after.labels && after == before.(labels := after.labels)
  }

  lemma CreateAdds(store: Store, d: Draft, now: int)
    ensures OnlyLabelsAdded(store, CreateLabel(store, d, now).0)
  {
  }

  lemma SubmitPrimaryAdds(store: Store, r: PrimaryReview, now: int)
    ensures OnlyLabelsAdded(store, SubmitPrimary(store, r, now).0)
  {
    CreateAdds(store, Draft(
      r.caseId, r.caseSha256, r.datasetVersion, r.rubricVersion, r.subjectKind, r.subjectId, Primary,
      r.reviewerId, r.attestationId, r.labels, r.candidateSha256, Some(r.packetSha256), None, None), now);
  }

  lemma SubmitIndependentAdds(store: Store, r: IndependentReview, now: int)
    ensures OnlyLabelsAdded(store, SubmitIndependent(store, r, now).0)
  {
    var primary := LatestLabel(store.labels, r.caseId, r.subjectKind, r.subjectId, Primary);
    if primary.Some? {
      var p := primary.value;
      CreateAdds(store, Draft(
        p.caseId, p.caseSha256, p.datasetVersion, p.rubricVersion, p.subjectKind, p.subjectId, Independent,
        r.reviewerId, r.attestationId, r.labels, None, Some(r.packetSha256), Some(p.id), None), now);
    }
  }

  // Review evidence is immutable: whatever was recorded at some moment is
  // still there, unchanged and in the same place, after any further requests.
  lemma {:induction false} EvidenceIsImmutable(store: Store, requests: seq<Request>)
    ensures Extends(store, RunFrom(store, requests))
  {
    if requests != [] {
      var before := RunFrom(store, requests[..|requests| - 1]);
      EvidenceIsImmutable(store, requests[..|requests| - 1]);
      AfterExtends(before, requests[|requests| - 1]);
    }
  }

  // ---- Revision chains ----

  predicate Belongs(l: Label, caseId: string, kind: SubjectKind, subjectId: string, role: Role) {
    SameSubject(l, caseId, kind, subjectId) && l.role == role
  }

  function Chain(labels: seq<Label>, caseId: string, kind: SubjectKind, subjectId: string, role: Role): seq<Label> {
    if labels == [] then []
    else
      var last := labels[|labels| - 1];
      Chain(labels[..|labels| - 1], caseId, kind, subjectId, role)
      + if Belongs(last, caseId, kind, subjectId, role) then [last] else []
  }

  // A first revision has no parent; any other has the one before it as its
  // parent, is numbered next, and changes its content.
  predicate Follows(prior: Option<Label>, l: Label) {
    match prior
    case None => l.revisionNumber == 1 && l.parentRevisionId == None
    case Some(p) =>
      l.revisionNumber == p.revisionNumber + 1 && l.parentRevisionId == Some(p.id) && l.content != p.content
  }

  function Prior(chain: seq<Label>, k: nat): Option<Label>
    requires k <= |chain|
  {
    if k == 0 then None else Some(chain[k - 1])
  }

  // Revisions 1..n, each following the one before it.
  predicate Linear(chain: seq<Label>) {
    forall k :: 0 <= k < |chain| ==> InPlace(chain, k)
  }

  lemma ChainNext(labels: seq<Label>, l: Label, caseId: string, kind: SubjectKind, subjectId: string, role: Role)
    ensures Chain(labels + [l], caseId, kind, subjectId, role)
            == if Belongs(l, caseId, kind, subjectId, role) then Chain(labels, caseId, kind, subjectId, role) + [l]
               else Chain(labels, caseId, kind, subjectId, role)
  {
    assert (labels + [l])[..|labels|] == labels;
    assert Chain(labels, caseId, kind, subjectId, role) + [] == Chain(labels, caseId, kind, subjectId, role);
  }

  lemma LatestNext(labels: seq<Label>, l: Label, caseId: string, kind: SubjectKind, subjectId: string, role: Role)
    requires var prior := LatestLabel(labels, caseId, kind, subjectId, role);
             Belongs(l, caseId, kind, subjectId, role) ==> Follows(prior, l)
    ensures LatestLabel(labels + [l], caseId, kind, subjectId, role)
            == if Belongs(l, caseId, kind, subjectId, role) then Some(l)
               else LatestLabel(labels, caseId, kind, subjectId, role)
  {
    assert (labels + [l])[..|labels|] == labels;
  }

  ghost predicate FollowsLatest(labels: seq<Label>, i: nat)
    requires i < |labels|
  {
    var l := labels[i];
    Follows(LatestLabel(labels[..i], l.caseId, l.subjectKind, l.subjectId, l.role), l)
  }

  lemma FollowsPrefix(labels: seq<Label>, n: nat)
    requires n <= |labels| && forall i :: 0 <= i < |labels| ==> FollowsLatest(labels, i)
    ensures forall i :: 0 <= i < n ==> FollowsLatest(labels[..n], i)
  {
    forall i | 0 <= i < n ensures FollowsLatest(labels[..n], i) {
      assert FollowsLatest(labels, i) && labels[..n][..i] == labels[..i];
    }
  }

  lemma {:induction false} FollowersAreLinear(labels: seq<Label>, caseId: string, kind: SubjectKind, subjectId: string, role: Role)
    requires forall i :: 0 <= i < |labels| ==> FollowsLatest(labels, i)
    ensures var chain := Chain(labels, caseId, kind, subjectId, role);
            Linear(chain) && LatestLabel(labels, caseId, kind, subjectId, role) == Prior(chain, |chain|)
  {
    if labels != [] {
      var n := |labels| - 1;
      FollowsPrefix(labels, n);
      FollowersAreLinear(labels[..n], caseId, kind, subjectId, role);
      assert FollowsLatest(labels, n);
      NextIsLinear(labels[..n], labels[n], caseId, kind, subjectId, role);
      assert labels[..n] + [labels[n]] == labels;
    }
  }

  lemma NextIsLinear(labels: seq<Label>, l: Label, caseId: string, kind: SubjectKind, subjectId: string, role: Role)
    requires Follows(LatestLabel(labels, l.caseId, l.subjectKind, l.subjectId, l.role), l)
    requires var chain := Chain(labels, caseId, kind, subjectId, role);
             Linear(chain) && LatestLabel(labels, caseId, kind, subjectId, role) == Prior(chain, |chain|)
    ensures var chain := Chain(labels + [l], caseId, kind, subjectId, role);
            Linear(chain) && LatestLabel(labels + [l], caseId, kind, subjectId, role) == Prior(chain, |chain|)
  {
    ChainNext(labels, l, caseId, kind, subjectId, role);
    LatestNext(labels, l, caseId, kind, subjectId, role);
    if Belongs(l, caseId, kind, subjectId, role) {
      LinearExtends(Chain(labels, caseId, kind, subjectId, role), l);
    }
  }

  // Per subject and role, the labels of a sound store form one linear chain,
  // and the label that counts as the latest is its end.
  lemma RevisionsAreLinear(store: Store, caseId: string, kind: SubjectKind, subjectId: string, role: Role)
    requires LabelsSound(store)
    ensures var chain := Chain(store.labels, caseId, kind, subjectId, role);
            Linear(chain) && LatestLabel(store.labels, caseId, kind, subjectId, role) == Prior(chain, |chain|)
  {
    forall i | 0 <= i < |store.labels| ensures FollowsLatest(store.labels, i) {
      LabelIsChained(store, i);
    }
    FollowersAreLinear(store.labels, caseId, kind, subjectId, role);
  }

  predicate InPlace(chain: seq<Label>, k: nat)
    requires k < |chain|
  {
    chain[k].revisionNumber == k + 1 && Follows(Prior(chain, k), chain[k])
  }

  lemma StillInPlace(chain: seq<Label>, l: Label, k: nat)
    requires k < |chain| && InPlace(chain, k)
    ensures InPlace(chain + [l], k)
  {
    assert Prior(chain + [l], k) == Prior(chain, k);
  }

  lemma NowInPlace(chain: seq<Label>, l: Label)
    requires Follows(Prior(chain, |chain|), l) && (chain == [] || InPlace(chain, |chain| - 1))
    ensures InPlace(chain + [l], |chain|)
  {
    assert Prior(chain + [l], |chain|) == Prior(chain, |chain|);
  }

  lemma LinearExtends(chain: seq<Label>, l: Label)
    requires Linear(chain) && Follows(Prior(chain, |chain|), l)
    ensures Linear(chain + [l])
  {
    forall k | 0 <= k < |chain + [l]| ensures InPlace(chain + [l], k) {
      if k < |chain| { StillInPlace(chain, l, k); } else { NowInPlace(chain, l); }
    }
  }

  lemma EveryChainIsLinear(requests: seq<Request>, caseId: string, kind: SubjectKind, subjectId: string, role: Role)
    ensures Linear(Chain(RunFrom(EMPTY, requests).labels, caseId, kind, subjectId, role))
  {
    EveryReachableStoreIsSound(requests);
    RevisionsAreLinear(RunFrom(EMPTY, requests), caseId, kind, subjectId, role);
  }

  // An independent or adjudicated label is never by a reviewer of the labels
  // it is linked to, which are of the same case, subject and version.
  lemma ReviewersAreSeparate(requests: seq<Request>, i: nat)
    requires i < |RunFrom(EMPTY, requests).labels|
    ensures var labels := RunFrom(EMPTY, requests).labels;
            var l := labels[i];
            && l.id == i
            && (l.role.Independent? ==>
                  && l.primaryLabelId.Some? && l.primaryLabelId.value < i
                  && labels[l.primaryLabelId.value].role.Primary? && SameCase(labels[l.primaryLabelId.value], l)
                  && labels[l.primaryLabelId.value].reviewerId != l.reviewerId)
            && (l.role.Adjudicated? ==>
                  && l.primaryLabelId.Some? && l.primaryLabelId.value < i
                  && l.independentLabelId.Some? && l.independentLabelId.value < i
                  && labels[l.independentLabelId.value].role.Independent?
                  && labels[l.independentLabelId.value].primaryLabelId == l.primaryLabelId
                  && labels[l.primaryLabelId.value].reviewerId != l.reviewerId
                  && labels[l.independentLabelId.value].reviewerId != l.reviewerId)
  {
    EveryReachableStoreIsSound(requests);
    assert LabelOk(RunFrom(EMPTY, requests), i);
  }

  // ---- The blind packet ----

  datatype Packet = Packet(
    caseId: string, caseSha256: string, datasetVersion: string, rubricVersion: string,
    subjectKind: SubjectKind, subjectId: string)

  function BlindPacket(store: Store, caseId: string, kind: SubjectKind, subjectId: string): Option<Packet> {
    match LatestLabel(store.labels, caseId, kind, subjectId, Primary)
    case None => None
    case Some(p) =>
      Some(Packet(p.caseId, p.caseSha256, p.datasetVersion, p.rubricVersion, p.subjectKind, p.subjectId))
  }

  // The labels differ in nothing but who judged, and how.
  predicate SameButJudgment(a: Label, b: Label) {
    a == b.(content := a.content, reviewerId := a.reviewerId, attestationId := a.attestationId,
            candidateSha256 := a.candidateSha256, packetSha256 := a.packetSha256)
  }

  ghost predicate SameButJudgments(a: seq<Label>, b: seq<Label>) {
    |a| == |b| && forall i :: 0 <= i < |a| ==> SameButJudgment(a[i], b[i])
  }

  lemma {:induction false} LatestIsBlind(a: seq<Label>, b: seq<Label>, caseId: string, kind: SubjectKind, subjectId: string,
                                         role: Role)
    requires SameButJudgments(a, b)
    ensures match (LatestLabel(a, caseId, kind, subjectId, role), LatestLabel(b, caseId, kind, subjectId, role))
            case (None, None) => true
            case (Some(l), Some(m)) => SameButJudgment(l, m)
            case _ => false
  {
    if a != [] {
      var n := |a| - 1;
      LatestIsBlind(a[..n], b[..n], caseId, kind, subjectId, role);
      assert SameButJudgment(a[n], b[n]);
    }
  }

  // An independent reviewer's packet tells nothing about the primary judgment:
  // it is the same for any judgments that could have been made.
  lemma PacketIsBlind(a: Store, b: Store, caseId: string, kind: SubjectKind, subjectId: string)
    requires SameButJudgments(a.labels, b.labels)
    ensures BlindPacket(a, caseId, kind, subjectId) == BlindPacket(b, caseId, kind, subjectId)
  {
    LatestIsBlind(a.labels, b.labels, caseId, kind, subjectId, Primary);
  }

  // ---- Final approval ----

  ghost function MaterialOf(store: Store, p: nat, q: nat): seq<Disagreement> {
    MaterialOnly(DisagreementsOf(store.disagreements, p, q))
  }

  ghost predicate HasAdjudication(store: Store, d: Disagreement) {
    AdjudicationsOf(store.adjudications, d.id) != []
  }

  ghost predicate AdjudicatedTo(store: Store, d: Disagreement, l: nat) {
    exists a :: a in AdjudicationsOf(store.adjudications, d.id) && a.adjudicatedLabelId == l
  }

  lemma {:induction false} CommonLabelsMembers(store: Store, material: seq<Disagreement>, l: nat)
    requires material != []
    ensures l in CommonLabels(store, material) <==> forall i :: 0 <= i < |material| ==> AdjudicatedTo(store, material[i], l)
    decreases |material|
  {
    var n := |material| - 1;
    assert l in (set a | a in AdjudicationsOf(store.adjudications, material[n].id) :: a.adjudicatedLabelId)
      <==> AdjudicatedTo(store, material[n], l);
    if |material| > 1 {
      CommonLabelsMembers(store, material[..n], l);
      if l in CommonLabels(store, material[..n]) {
        assert forall i :: 0 <= i < n ==> AdjudicatedTo(store, material[..n][i], l);
        assert forall i :: 0 <= i < n ==> material[..n][i] == material[i];
      }
    }
  }

  lemma {:induction false} AtMostOneAdjudication(adjudications: seq<Adjudication>, d: nat)
    requires forall i, j :: 0 <= i < j < |adjudications| ==> adjudications[i].disagreementId != adjudications[j].disagreementId
    ensures |AdjudicationsOf(adjudications, d)| <= 1
  {
    if adjudications != [] {
      var n := |adjudications| - 1;
      var found := AdjudicationsOf(adjudications[..n], d);
      AtMostOneAdjudication(adjudications[..n], d);
      if found != [] {
        AdjudicationsOfMembers(adjudications[..n], d, found[0]);
        assert found[0] in adjudications[..n];
      }
    }
  }

  // The one label that the adjudications of a pair can name.
  lemma PairHasOneResolution(store: Store, p: nat, q: nat, d: Disagreement, e: Disagreement, a: Adjudication, b: Adjudication)
    requires AdjudicatedOnce(store) && MaterialRecord(store, d, p, q) && MaterialRecord(store, e, p, q)
    requires a in AdjudicationsOf(store.adjudications, d.id) && b in AdjudicationsOf(store.adjudications, e.id)
    ensures a.adjudicatedLabelId == b.adjudicatedLabelId
  {
    AdjudicationsOfMembers(store.adjudications, d.id, a);
    AdjudicationsOfMembers(store.adjudications, e.id, b);
    var i :| 0 <= i < |store.adjudications| && store.adjudications[i] == a;
    var j :| 0 <= j < |store.adjudications| && store.adjudications[j] == b;
    assert SamePair(store.disagreements[a.disagreementId], store.disagreements[b.disagreementId]);
  }

  // `l` settles the disagreement: it has exactly one adjudication, made by
  // the reviewer of `l` and naming `l`.
  ghost predicate Settled(store: Store, d: Disagreement, l: Label) {
    && |AdjudicationsOf(store.adjudications, d.id)| == 1
    && var a := AdjudicationsOf(store.adjudications, d.id)[0];
       a.disagreementId == d.id && a.adjudicatedLabelId == l.id && a.adjudicatorId == l.reviewerId && Text(a.rationale)
  }

  ghost predicate Resolution(store: Store, material: seq<Disagreement>, p: Label, q: Label, l: Label) {
    && l.id < |store.labels| && store.labels[l.id] == l
    && l.role.Adjudicated? && l.primaryLabelId == Some(p.id) && l.independentLabelId == Some(q.id)
    && l.reviewerId != p.reviewerId && l.reviewerId != q.reviewerId
    && forall i :: 0 <= i < |material| ==> Settled(store, material[i], l)
  }

  lemma ListedAdjudication(store: Store, d: Disagreement, a: Adjudication) returns (i: nat)
    requires AdjudicationsSound(store) && a in AdjudicationsOf(store.adjudications, d.id)
    ensures i < |store.adjudications| && store.adjudications[i] == a && AdjudicationOk(store, i) && a.disagreementId == d.id
  {
    AdjudicationsOfMembers(store.adjudications, d.id, a);
    i :| 0 <= i < |store.adjudications| && store.adjudications[i] == a;
    assert AdjudicationOk(store, i);
  }

  lemma AdjudicationSettles(store: Store, p: nat, q: nat, d: Disagreement, l: nat)
    requires Sound(store) && MaterialRecord(store, d, p, q) && AdjudicatedTo(store, d, l)
    ensures l < |store.labels| && Settled(store, d, store.labels[l])
    ensures var r := store.labels[l];
            r.id == l && r.role.Adjudicated? && r.primaryLabelId == Some(p) && r.independentLabelId == Some(q)
  {
    var a :| a in AdjudicationsOf(store.adjudications, d.id) && a.adjudicatedLabelId == l;
    var i := ListedAdjudication(store, d, a);
    LabelIdentity(store, l);
    AtMostOneAdjudication(store.adjudications, d.id);
  }

  lemma AdjudicatorIsSeparate(store: Store, l: nat)
    requires LabelsSound(store) && l < |store.labels| && store.labels[l].role.Adjudicated?
    ensures var r := store.labels[l];
            && r.primaryLabelId.Some? && r.primaryLabelId.value < |store.labels|
            && store.labels[r.primaryLabelId.value].reviewerId != r.reviewerId
            && r.independentLabelId.Some? && r.independentLabelId.value < |store.labels|
            && store.labels[r.independentLabelId.value].reviewerId != r.reviewerId
  {
    assert LabelOk(store, l);
  }

  lemma CommonLabelSettles(store: Store, p: nat, q: nat, pick: nat, i: nat)
    requires Sound(store) && i < |MaterialOf(store, p, q)| && pick in CommonLabels(store, MaterialOf(store, p, q))
    ensures pick < |store.labels| && Settled(store, MaterialOf(store, p, q)[i], store.labels[pick])
    ensures var r := store.labels[pick];
            r.id == pick && r.role.Adjudicated? && r.primaryLabelId == Some(p) && r.independentLabelId == Some(q)
  {
    MaterialOfPair(store, p, q);
    CommonLabelsMembers(store, MaterialOf(store, p, q), pick);
    AdjudicationSettles(store, p, q, MaterialOf(store, p, q)[i], pick);
  }

  lemma CommonLabelResolves(store: Store, p: Label, q: Label, pick: nat)
    requires Sound(store) && p.id < |store.labels| && q.id < |store.labels|
    requires store.labels[p.id] == p && store.labels[q.id] == q
    requires MaterialOf(store, p.id, q.id) != [] && pick in CommonLabels(store, MaterialOf(store, p.id, q.id))
    ensures pick < |store.labels| && Resolution(store, MaterialOf(store, p.id, q.id), p, q, store.labels[pick])
  {
    CommonLabelSettles(store, p.id, q.id, pick, 0);
    forall i | 0 <= i < |MaterialOf(store, p.id, q.id)|
      ensures Settled(store, MaterialOf(store, p.id, q.id)[i], store.labels[pick])
    {
      CommonLabelSettles(store, p.id, q.id, pick, i);
    }
    AdjudicatorIsSeparate(store, pick);
  }

  // The labels common to all disagreements exist exactly when each has one.
  lemma CommonLabelExists(store: Store, p: nat, q: nat)
    requires Sound(store) && MaterialOf(store, p, q) != []
    ensures CommonLabels(store, MaterialOf(store, p, q)) != {}
            <==> forall d :: d in MaterialOf(store, p, q) ==> HasAdjudication(store, d)
  {
    var material := MaterialOf(store, p, q);
    MaterialOfPair(store, p, q);
    if CommonLabels(store, material) != {} {
      var l :| l in CommonLabels(store, material);
      CommonLabelsMembers(store, material, l);
      forall d | d in material ensures HasAdjudication(store, d) {
        var i :| 0 <= i < |material| && material[i] == d;
        assert AdjudicatedTo(store, material[i], l);
      }
    }
    if forall d :: d in material ==> HasAdjudication(store, d) {
      assert HasAdjudication(store, material[0]);
      var a := AdjudicationsOf(store.adjudications, material[0].id)[0];
      forall i | 0 <= i < |material| ensures AdjudicatedTo(store, material[i], a.adjudicatedLabelId) {
        assert HasAdjudication(store, material[i]);
        var b := AdjudicationsOf(store.adjudications, material[i].id)[0];
        PairHasOneResolution(store, p, q, material[0], material[i], a, b);
      }
      CommonLabelsMembers(store, material, a.adjudicatedLabelId);
    }
  }

  // A recorded pair has no material disagreement exactly when the two labels
  // agree on everything but evidence and rationale.
  lemma NoMaterialMeansSameJudgment(p: Label, q: Label, next: nat)
    requires p.content.Kind() == p.subjectKind == q.content.Kind() && p.content.Consistent() && q.content.Consistent()
    ensures MaterialOnly(AllDisagreements(p, q, next)) == [] <==> SameJudgment(p.content, q.content)
  {
    MaterialAgreementIsSameJudgment(p.content, q.content);
    var paths := SortedTexts(DifferingPathsOf(p, q));
    NoMaterialMeansDisjoint(p, q, paths, next);
    assert (forall path :: path in paths ==> path !in MaterialPaths(p.subjectKind))
      <==> DifferingPathsOf(p, q) !! MaterialPaths(p.subjectKind);
  }

  lemma NoMaterialMeansDisjoint(p: Label, q: Label, paths: seq<string>, next: nat)
    ensures MaterialOnly(NewDisagreements(p, q, paths, next)) == []
            <==> forall path :: path in paths ==> path !in MaterialPaths(p.subjectKind)
  {
    var ds := NewDisagreements(p, q, paths, next);
    forall i | 0 <= i < |paths| ensures ds[i] == DisagreementAt(p, q, paths[i], next + i) {
      DifferencesAt(p, q, FlatOf(p), FlatOf(q), MaterialPaths(p.subjectKind), paths, next, i);
    }
    if MaterialOnly(ds) != [] {
      var material := MaterialOnly(ds)[0];
      MaterialOnlyMembers(ds, material);
      var i :| 0 <= i < |ds| && ds[i] == material;
      assert paths[i] in MaterialPaths(p.subjectKind);
    } else {
      forall path | path in paths ensures path !in MaterialPaths(p.subjectKind) {
        var i :| 0 <= i < |paths| && paths[i] == path;
        MaterialOnlyMembers(ds, ds[i]);
      }
    }
  }

  // After recording, the pair's disagreements are all of its differences.
  lemma RecordedPairIsComplete(store: Store, independentId: nat)
    requires Sound(store) && LinkedPair(store, independentId).Ok?
    ensures var (p, q) := LinkedPair(store, independentId).value;
            var (after, found) := RecordMaterialDisagreements(store, independentId);
            && Sound(after) && found == Ok(DisagreementsOf(after.disagreements, p.id, q.id))
            && after.labels == store.labels && after.adjudications == store.adjudications
            && exists next: nat :: found.value == AllDisagreements(p, q, next)
  {
    var (p, q) := LinkedPair(store, independentId).value;
    PairIsLinked(store, independentId);
    if DisagreementsOf(store.disagreements, p.id, q.id) == [] {
      AppendDisagreementsKeepsSound(store, p.id, q.id);
    } else {
      assert PairRecorded(store, p.id, q.id);
    }
  }

  // The meaning of final approval, for any reachable store.
  ghost predicate ApprovalIsFaithful(after: Store, p: Label, q: Label, r: Result<Label, ReviewError>) {
    var material := MaterialOf(after, p.id, q.id);
    && (r.Ok? <==> forall d :: d in material ==> HasAdjudication(after, d))
    && (r.Err? ==> r.error == UnresolvedDisagreement)
    && (material == [] <==> SameJudgment(p.content, q.content))
    && (material == [] ==> r == Ok(p))
    && (material != [] && r.Ok? ==> Resolution(after, material, p, q, r.value))
  }

  lemma ApprovalIsExact(store: Store, independentId: nat, after: Store, r: Result<Label, ReviewError>)
    requires Sound(store) && LinkedPair(store, independentId).Ok? && Finalizes(store, independentId, after, r)
    ensures var (p, q) := LinkedPair(store, independentId).value; ApprovalIsFaithful(after, p, q, r)
  {
    var (p, q) := LinkedPair(store, independentId).value;
    PairIsLinked(store, independentId);
    RecordedPairIsComplete(store, independentId);
    assert LabelOk(store, p.id) && LabelOk(store, q.id);
    var next: nat :| DisagreementsOf(after.disagreements, p.id, q.id) == AllDisagreements(p, q, next);
    NoMaterialMeansSameJudgment(p, q, next);
    if MaterialOf(after, p.id, q.id) != [] {
      DecisionIsExact(after, p, q, r);
    }
  }

  lemma DecisionIsExact(store: Store, p: Label, q: Label, r: Result<Label, ReviewError>)
    requires Sound(store) && p.id < |store.labels| && q.id < |store.labels|
    requires store.labels[p.id] == p && store.labels[q.id] == q
    requires MaterialOf(store, p.id, q.id) != [] && Approves(store, MaterialOf(store, p.id, q.id), p, r)
    ensures r.Ok? <==> forall d :: d in MaterialOf(store, p.id, q.id) ==> HasAdjudication(store, d)
    ensures r.Err? ==> r.error == UnresolvedDisagreement
    ensures r.Ok? ==> Resolution(store, MaterialOf(store, p.id, q.id), p, q, r.value)
  {
    var material := MaterialOf(store, p.id, q.id);
    CommonLabelExists(store, p.id, q.id);
    if CommonLabels(store, material) != {} {
      var pick :| pick in CommonLabels(store, material) && r == Approved(store, pick);
      CommonLabelResolves(store, p, q, pick);
    }
  }

  // Final approval over every run: at any moment, for any linked pair.
  lemma EveryApprovalIsFaithful(requests: seq<Request>, independentId: nat, after: Store, r: Result<Label, ReviewError>)
    requires LinkedPair(RunFrom(EMPTY, requests), independentId).Ok?
    requires Finalizes(RunFrom(EMPTY, requests), independentId, after, r)
    ensures var (p, q) := LinkedPair(RunFrom(EMPTY, requests), independentId).value; ApprovalIsFaithful(after, p, q, r)
  {
    EveryReachableStoreIsSound(requests);
    ApprovalIsExact(RunFrom(EMPTY, requests), independentId, after, r);
  }

  // ---- What an adjudication leaves behind when a rationale is blank ----

  // How many rationales the loop accepts before the first blank one.
  function Answered(material: seq<Disagreement>, rationales: map<nat, string>): (n: nat)
    requires Ids(material) <= rationales.Keys
    ensures n <= |material|
    ensures n < |material| ==> material[n].id in rationales && Blank(rationales[material[n].id])
    decreases |material|
  {
    if material == [] then 0
    else
      assert material[0].id in Ids(material);
      if Blank(rationales[material[0].id]) then 0
      else
        assert Ids(material[1..]) <= Ids(material);
        1 + Answered(material[1..], rationales)
  }

  lemma {:induction false} AdjudicationsOfAppend(adjudications: seq<Adjudication>, a: Adjudication, d: nat)
    ensures AdjudicationsOf(adjudications + [a], d)
            == AdjudicationsOf(adjudications, d) + if a.disagreementId == d then [a] else []
  {
    assert (adjudications + [a])[..|adjudications|] == adjudications;
  }

  lemma {:induction false} LoopLeavesOthers(store: Store, material: seq<Disagreement>, resolved: Label, adjudicatorId: string,
                                            rationales: map<nat, string>, d: nat)
    requires Ids(material) <= rationales.Keys && d !in Ids(material)
    ensures AdjudicationsOf(RecordAdjudications(store, material, resolved, adjudicatorId, rationales).0.adjudications, d)
            == AdjudicationsOf(store.adjudications, d)
    decreases |material|
  {
    if material != [] {
      assert material[0].id in Ids(material);
      var rationale := Strip(rationales[material[0].id]);
      if rationale != "" {
        var a := Adjudication(|store.adjudications|, material[0].id, resolved.id, Strip(adjudicatorId), rationale);
        assert Ids(material[1..]) <= Ids(material);
        LoopLeavesOthers(store.(adjudications := store.adjudications + [a]), material[1..], resolved, adjudicatorId, rationales, d);
        AdjudicationsOfAppend(store.adjudications, a, d);
      }
    }
  }

  // The loop adjudicates exactly the answered disagreements, once each.
  lemma {:induction false} LoopOutcome(store: Store, material: seq<Disagreement>, resolved: Label, adjudicatorId: string,
                                       rationales: map<nat, string>, k: nat)
    requires Ids(material) <= rationales.Keys && k < |material|
    requires forall i, j :: 0 <= i < j < |material| ==> material[i].id != material[j].id
    requires AdjudicationsOf(store.adjudications, material[k].id) == []
    ensures |AdjudicationsOf(RecordAdjudications(store, material, resolved, adjudicatorId, rationales).0.adjudications,
                             material[k].id)|
            == (if k < Answered(material, rationales) then 1 else 0)
    decreases |material|
  {
    assert material[0].id in Ids(material);
    var rationale := Strip(rationales[material[0].id]);
    if rationale != "" {
      var a := Adjudication(|store.adjudications|, material[0].id, resolved.id, Strip(adjudicatorId), rationale);
      var next := store.(adjudications := store.adjudications + [a]);
      assert Ids(material[1..]) <= Ids(material);
      AdjudicationsOfAppend(store.adjudications, a, material[k].id);
      if k == 0 {
        LoopLeavesOthers(next, material[1..], resolved, adjudicatorId, rationales, a.disagreementId);
      } else {
        LoopOutcome(next, material[1..], resolved, adjudicatorId, rationales, k - 1);
      }
    }
  }

  // It succeeds exactly when every disagreement is answered.
  lemma {:induction false} LoopSucceeds(store: Store, material: seq<Disagreement>, resolved: Label, adjudicatorId: string,
                                           rationales: map<nat, string>)
    requires Ids(material) <= rationales.Keys
    ensures RecordAdjudications(store, material, resolved, adjudicatorId, rationales).1
            == if Answered(material, rationales) == |material| then Ok(resolved) else Err(BlankValue)
    decreases |material|
  {
    if material != [] {
      assert material[0].id in Ids(material);
      var rationale := Strip(rationales[material[0].id]);
      if rationale != "" {
        var a := Adjudication(|store.adjudications|, material[0].id, resolved.id, Strip(adjudicatorId), rationale);
        assert Ids(material[1..]) <= Ids(material);
        LoopSucceeds(store.(adjudications := store.adjudications + [a]), material[1..], resolved, adjudicatorId, rationales);
      }
    }
  }

  lemma FiledAdjudication(store: Store, r: AdjudicationRequest, now: int)
    requires Sound(store) && Files(store, r, now)
    ensures var (p, q) := LinkedPair(store, r.independentId).value;
            var (next, filed) := CreateLabel(store, AdjudicationDraft(p, q, r), now);
            && filed.Ok? && next.adjudications == store.adjudications && next.disagreements == store.disagreements
            && Adjudicate(store, r, now)
               == RecordAdjudications(next, MaterialOf(store, p.id, q.id), filed.value, r.adjudicatorId, r.rationales)
  {
  }

  // The disagreements that are answered before the first blank rationale get
  // one adjudication each, and the request succeeds if that is all of them.
  lemma AdjudicationOutcome(store: Store, r: AdjudicationRequest, now: int, k: nat)
    requires Sound(store) && Files(store, r, now)
    requires var (p, q) := LinkedPair(store, r.independentId).value; k < |MaterialOf(store, p.id, q.id)|
    ensures var (p, q) := LinkedPair(store, r.independentId).value;
            var material := MaterialOf(store, p.id, q.id);
            var (after, result) := Adjudicate(store, r, now);
            && MaterialOf(after, p.id, q.id) == material
            && (result.Ok? <==> Answered(material, r.rationales) == |material|)
            && |AdjudicationsOf(after.adjudications, material[k].id)|
               == (if k < Answered(material, r.rationales) then 1 else 0)
  {
    var (p, q) := LinkedPair(store, r.independentId).value;
    var material := MaterialOf(store, p.id, q.id);
    var (next, filed) := CreateLabel(store, AdjudicationDraft(p, q, r), now);
    FiledAdjudication(store, r, now);
    MaterialIsDistinct(store, p.id, q.id);
    LoopOutcome(next, material, filed.value, r.adjudicatorId, r.rationales, k);
    LoopSucceeds(next, material, filed.value, r.adjudicatorId, r.rationales);
    AdjudicateEffect(store, r, now);
  }

  lemma MaterialIsDistinct(store: Store, p: nat, q: nat)
    requires Sound(store)
    ensures var material := MaterialOf(store, p, q);
            forall i, j :: 0 <= i < j < |material| ==> material[i].id != material[j].id
  {
    MaterialOfPair(store, p, q);
  }

  // A pair is stuck when only some of its disagreements were adjudicated.
  ghost predicate Stuck(store: Store, p: nat, q: nat) {
    var material := MaterialOf(store, p, q);
    (exists d :: d in material && HasAdjudication(store, d)) && (exists d :: d in material && !HasAdjudication(store, d))
  }

  // An adjudication leaves the pair stuck exactly when a blank rationale comes
  // after an accepted one.
  lemma BlankRationaleSticksThePair(store: Store, r: AdjudicationRequest, now: int)
    requires Sound(store) && Files(store, r, now)
    ensures var (p, q) := LinkedPair(store, r.independentId).value;
            var material := MaterialOf(store, p.id, q.id);
            Stuck(Adjudicate(store, r, now).0, p.id, q.id) <==> 0 < Answered(material, r.rationales) < |material|
  {
    var (p, q) := LinkedPair(store, r.independentId).value;
    var material := MaterialOf(store, p.id, q.id);
    var n := Answered(material, r.rationales);
    var after := Adjudicate(store, r, now).0;
    forall k | 0 <= k < |material|
      ensures MaterialOf(after, p.id, q.id) == material && (HasAdjudication(after, material[k]) <==> k < n)
    {
      AdjudicationOutcome(store, r, now, k);
    }
    StuckByPosition(after, p.id, q.id, n);
  }

  lemma StuckByPosition(store: Store, p: nat, q: nat, n: nat)
    requires var material := MaterialOf(store, p, q);
             material != [] && n <= |material|
             && forall k :: 0 <= k < |material| ==> (HasAdjudication(store, material[k]) <==> k < n)
    ensures Stuck(store, p, q) <==> 0 < n < |MaterialOf(store, p, q)|
  {
    var material := MaterialOf(store, p, q);
    if 0 < n < |material| {
      assert material[0] in material && HasAdjudication(store, material[0]);
      assert material[n] in material && !HasAdjudication(store, material[n]);
    }
    if Stuck(store, p, q) {
      var d :| d in material && HasAdjudication(store, d);
      var e :| e in material && !HasAdjudication(store, e);
      var i :| 0 <= i < |material| && material[i] == d;
      var j :| 0 <= j < |material| && material[j] == e;
      assert i < n <= j;
    }
  }

  lemma PairOfRecord(store: Store, d: Disagreement, p: nat, q: nat)
    requires Sound(store) && MaterialRecord(store, d, p, q)
    ensures LinkedPair(store, q).Ok? && LinkedPair(store, q).value.0.id == p && LinkedPair(store, q).value.1.id == q
  {
    assert DisagreementOk(store, d.id);
    assert LabelOk(store, q);
    assert LabelOk(store, p);
  }

  // A material disagreement of the pair that has an adjudication.
  lemma StuckRecord(store: Store, p: nat, q: nat) returns (i: nat)
    requires Sound(store) && Stuck(store, p, q)
    ensures i < |MaterialOf(store, p, q)| && HasAdjudication(store, MaterialOf(store, p, q)[i])
    ensures MaterialRecord(store, MaterialOf(store, p, q)[i], p, q)
  {
    var material := MaterialOf(store, p, q);
    var d :| d in material && HasAdjudication(store, d);
    i :| 0 <= i < |material| && material[i] == d;
    MaterialOfPair(store, p, q);
  }

  lemma StuckPairIsLinked(store: Store, p: nat, q: nat)
    requires Sound(store) && Stuck(store, p, q)
    ensures LinkedPair(store, q).Ok? && LinkedPair(store, q).value.0.id == p && LinkedPair(store, q).value.1.id == q
    ensures DisagreementsOf(store.disagreements, p, q) != []
    ensures SomeAdjudicated(store, MaterialOf(store, p, q))
  {
    var i := StuckRecord(store, p, q);
    PairOfRecord(store, MaterialOf(store, p, q)[i], p, q);
  }

  // No adjudication of a stuck pair is accepted, nor is its approval.
  lemma StuckPairIsRejected(store: Store, p: nat, q: nat, r: AdjudicationRequest, now: int,
                            after: Store, approval: Result<Label, ReviewError>)
    requires Sound(store) && Stuck(store, p, q)
    requires r.independentId == q && Finalizes(store, q, after, approval)
    ensures Adjudicate(store, r, now).0 == store && Adjudicate(store, r, now).1.Err?
    ensures after == store && approval == Err(UnresolvedDisagreement)
  {
    StuckPairIsLinked(store, p, q);
    ApprovalIsExact(store, q, after, approval);
  }

  lemma CompareLeavesPair(store: Store, id: nat, p: nat, q: nat)
    requires Sound(store) && DisagreementsOf(store.disagreements, p, q) != []
    ensures DisagreementsOf(RecordMaterialDisagreements(store, id).0.disagreements, p, q)
            == DisagreementsOf(store.disagreements, p, q)
  {
    if LinkedPair(store, id).Ok? {
      var (p', q') := LinkedPair(store, id).value;
      PairIsLinked(store, id);
      if DisagreementsOf(store.disagreements, p'.id, q'.id) == [] {
        var paths := SortedTexts(DifferingPathsOf(p', q'));
        var recorded := NewDisagreements(p', q', paths, |store.disagreements|);
        NewDisagreementsOfPair(p', q', paths, |store.disagreements|);
        DisagreementsOfConcat(store.disagreements, recorded, p, q);
        DisagreementsOfUniform(recorded, p, q, false);
      }
    }
  }

  // Adjudicating one pair leaves the adjudications of any other pair alone.
  lemma SettleLeavesOtherPairs(store: Store, r: AdjudicationRequest, now: int, p: nat, q: nat, d: Disagreement)
    requires Sound(store) && Files(store, r, now) && MaterialRecord(store, d, p, q) && r.independentId != q
    ensures AdjudicationsOf(Adjudicate(store, r, now).0.adjudications, d.id) == AdjudicationsOf(store.adjudications, d.id)
  {
    var (p', q') := LinkedPair(store, r.independentId).value;
    var (next, filed) := CreateLabel(store, AdjudicationDraft(p', q', r), now);
    var material := MaterialOf(store, p'.id, q'.id);
    PairIsLinked(store, r.independentId);
    MaterialOfPair(store, p'.id, q'.id);
    assert d.id !in Ids(material);
    LoopLeavesOthers(next, material, filed.value, r.adjudicatorId, r.rationales, d.id);
  }

  lemma SettleLeavesStuckPair(store: Store, r: AdjudicationRequest, now: int, p: nat, q: nat, d: Disagreement)
    requires Sound(store) && Stuck(store, p, q) && d in MaterialOf(store, p, q)
    ensures AdjudicationsOf(Adjudicate(store, r, now).0.adjudications, d.id) == AdjudicationsOf(store.adjudications, d.id)
  {
    AdjudicateEffect(store, r, now);
    if Files(store, r, now) {
      StuckPairIsLinked(store, p, q);
      MaterialOfPair(store, p, q);
      var i :| 0 <= i < |MaterialOf(store, p, q)| && MaterialOf(store, p, q)[i] == d;
      SettleLeavesOtherPairs(store, r, now, p, q, d);
    }
  }

  lemma StuckFrame(store: Store, after: Store, p: nat, q: nat)
    requires Stuck(store, p, q)
    requires DisagreementsOf(after.disagreements, p, q) == DisagreementsOf(store.disagreements, p, q)
    requires forall d :: d in MaterialOf(store, p, q) ==>
               AdjudicationsOf(after.adjudications, d.id) == AdjudicationsOf(store.adjudications, d.id)
    ensures Stuck(after, p, q)
  {
    var d :| d in MaterialOf(store, p, q) && HasAdjudication(store, d);
    var e :| e in MaterialOf(store, p, q) && !HasAdjudication(store, e);
    assert d in MaterialOf(after, p, q) && HasAdjudication(after, d);
    assert e in MaterialOf(after, p, q) && !HasAdjudication(after, e);
  }

  lemma SettleKeepsStuck(store: Store, r: AdjudicationRequest, now: int, p: nat, q: nat)
    requires Sound(store) && Stuck(store, p, q)
    ensures Stuck(Adjudicate(store, r, now).0, p, q)
  {
    var after := Adjudicate(store, r, now).0;
    forall d | d in MaterialOf(store, p, q)
      ensures AdjudicationsOf(after.adjudications, d.id) == AdjudicationsOf(store.adjudications, d.id)
    {
      SettleLeavesStuckPair(store, r, now, p, q, d);
    }
    AdjudicateEffect(store, r, now);
    StuckFrame(store, after, p, q);
  }

  lemma CompareKeepsStuck(store: Store, id: nat, p: nat, q: nat)
    requires Sound(store) && Stuck(store, p, q)
    ensures Stuck(RecordMaterialDisagreements(store, id).0, p, q)
  {
    StuckPairIsLinked(store, p, q);
    CompareLeavesPair(store, id, p, q);
    StuckFrame(store, RecordMaterialDisagreements(store, id).0, p, q);
  }

  lemma StuckStays(store: Store, r: Request, p: nat, q: nat)
    requires Sound(store) && Stuck(store, p, q)
    ensures Stuck(After(store, r), p, q)
  {
    match r
    case Compare(id) => CompareKeepsStuck(store, id, p, q);
    case Finalize(id) => CompareKeepsStuck(store, id, p, q);
    case Settle(adjudication, at) => SettleKeepsStuck(store, adjudication, at, p, q);
    case _ =>
      SubmissionsOnlyAdd(store, r);
      StuckFrame(store, After(store, r), p, q);
  }

  lemma {:induction false} StuckThroughout(store: Store, requests: seq<Request>, p: nat, q: nat)
    requires Sound(store) && Stuck(store, p, q)
    ensures Sound(RunFrom(store, requests)) && Stuck(RunFrom(store, requests), p, q)
  {
    if requests != [] {
      var before := RunFrom(store, requests[..|requests| - 1]);
      StuckThroughout(store, requests[..|requests| - 1], p, q);
      AfterIsSound(before, requests[|requests| - 1]);
      StuckStays(before, requests[|requests| - 1], p, q);
    }
  }

  // Whatever is requested afterwards, a pair that became stuck stays so: no
  // later adjudication of it is accepted and it is never approved.
  lemma StuckForever(store: Store, requests: seq<Request>, p: nat, q: nat, r: AdjudicationRequest, now: int,
                     after: Store, approval: Result<Label, ReviewError>)
    requires Sound(store) && Stuck(store, p, q)
    requires r.independentId == q && Finalizes(RunFrom(store, requests), q, after, approval)
    ensures Adjudicate(RunFrom(store, requests), r, now).0 == RunFrom(store, requests)
    ensures Adjudicate(RunFrom(store, requests), r, now).1.Err?
    ensures approval == Err(UnresolvedDisagreement)
  {
    StuckThroughout(store, requests, p, q);
    StuckPairIsRejected(RunFrom(store, requests), p, q, r, now, after, approval);
  }

  // ---- An aborted adjudication cannot simply be repeated ----

  lemma RepeatIsRejected(store: Store, r: AdjudicationRequest, now: int, again: AdjudicationRequest, later: int)
    requires Sound(store) && Files(store, r, now)
    requires again.independentId == r.independentId && again.labels == r.labels
    ensures var after := Adjudicate(store, r, now).0;
            Adjudicate(after, again, later).0 == after && Adjudicate(after, again, later).1.Err?
  {
    var (p, q) := LinkedPair(store, r.independentId).value;
    var after := Adjudicate(store, r, now).0;
    FiledLabelIsLatest(store, r, now);
    UnchangedDraftIsRejected(after, AdjudicationDraft(p, q, r), AdjudicationDraft(p, q, again), later);
    AdjudicateEffect(after, again, later);
  }

  lemma FiledLabelIsLatest(store: Store, r: AdjudicationRequest, now: int)
    requires Sound(store) && Files(store, r, now)
    ensures var (p, q) := LinkedPair(store, r.independentId).value;
            var after := Adjudicate(store, r, now).0;
            var d := AdjudicationDraft(p, q, r);
            var latest := LatestLabel(after.labels, Strip(d.caseId), d.subjectKind, Strip(d.subjectId), d.role);
            && LinkedPair(after, r.independentId) == LinkedPair(store, r.independentId)
            && latest.Some? && Validate(d.subjectKind, d.labels) == Ok(latest.value.content)
  {
    var (p, q) := LinkedPair(store, r.independentId).value;
    var (next, filed) := CreateLabel(store, AdjudicationDraft(p, q, r), now);
    CreatedLabelIsLatest(store, AdjudicationDraft(p, q, r), now);
    RecordingAdjudicationsAdds(next, MaterialOf(store, p.id, q.id), filed.value, r.adjudicatorId, r.rationales);
    PairIsLinked(store, r.independentId);
  }

  lemma CreatedLabelIsLatest(store: Store, d: Draft, now: int)
    requires CreateLabel(store, d, now).1.Ok?
    ensures var (after, r) := CreateLabel(store, d, now);
            && LatestLabel(after.labels, Strip(d.caseId), d.subjectKind, Strip(d.subjectId), d.role) == Some(r.value)
            && Validate(d.subjectKind, d.labels) == Ok(r.value.content)
  {
    var (after, r) := CreateLabel(store, d, now);
    assert after.labels[..|store.labels|] == store.labels;
  }

  lemma UnchangedDraftIsRejected(store: Store, d: Draft, again: Draft, now: int)
    requires again.caseId == d.caseId && again.subjectKind == d.subjectKind && again.subjectId == d.subjectId
    requires again.role == d.role && again.labels == d.labels
    requires var latest := LatestLabel(store.labels, Strip(d.caseId), d.subjectKind, Strip(d.subjectId), d.role);
             latest.Some? && Validate(d.subjectKind, d.labels) == Ok(latest.value.content)
    ensures CreateLabel(store, again, now).0 == store && CreateLabel(store, again, now).1.Err?
  {
  }
}
