// The review repository and the review service as the objects they are: every
// method changes the repository exactly as ReviewStore's functions say.
module ReviewService {
  import opened Basics
  import opened JsonTree
  import opened JsonPointer
  import opened ReviewLabels
  import opened ReviewStore

  function LabelsOf(labels: seq<Label>, caseId: string, kind: SubjectKind, subjectId: string): seq<Label> {
    if labels == [] then []
    else
      var last := labels[|labels| - 1];
      LabelsOf(labels[..|labels| - 1], caseId, kind, subjectId)
      + if SameSubject(last, caseId, kind, subjectId) then [last] else []
  }

  lemma LatestOfExtended(labels: seq<Label>, last: Label, caseId: string, kind: SubjectKind, subjectId: string, role: Role)
    ensures var earlier := LatestLabel(labels, caseId, kind, subjectId, role);
            LatestLabel(labels + [last], caseId, kind, subjectId, role)
            == if !SameSubject(last, caseId, kind, subjectId) || last.role != role then earlier
               else if earlier.None? || LabelLe(earlier.value, last) then Some(last)
               else earlier
  {
    assert (labels + [last])[..|labels|] == labels;
  }

  lemma {:induction false} LatestOfListing(labels: seq<Label>, caseId: string, kind: SubjectKind, subjectId: string, role: Role)
    ensures LatestLabel(LabelsOf(labels, caseId, kind, subjectId), caseId, kind, subjectId, role)
            == LatestLabel(labels, caseId, kind, subjectId, role)
  {
    if labels != [] {
      var rest := labels[..|labels| - 1];
      var last := labels[|labels| - 1];
      LatestOfListing(rest, caseId, kind, subjectId, role);
      assert labels == rest + [last];
      LatestOfExtended(rest, last, caseId, kind, subjectId, role);
      var found := LabelsOf(rest, caseId, kind, subjectId);
      if SameSubject(last, caseId, kind, subjectId) {
        LatestOfExtended(found, last, caseId, kind, subjectId, role);
      } else {
        assert LabelsOf(labels, caseId, kind, subjectId) == found;
      }
    }
  }

  lemma {:induction false} LabelsOfMembers(labels: seq<Label>, caseId: string, kind: SubjectKind, subjectId: string)
    ensures forall l :: l in LabelsOf(labels, caseId, kind, subjectId) ==> l in labels && SameSubject(l, caseId, kind, subjectId)
  {
    if labels != [] {
      LabelsOfMembers(labels[..|labels| - 1], caseId, kind, subjectId);
    }
  }

  // The four tables of the in-memory repository.
  class ReviewRepository {
    var attestations: seq<Attestation>
    var labels: seq<Label>
    var disagreements: seq<Disagreement>
    var adjudications: seq<Adjudication>

    ghost function Snapshot(): Store
      reads this
    {
      Store(attestations, labels, disagreements, adjudications)
    }

    constructor ()
      ensures Snapshot() == EMPTY
    {
      attestations, labels, disagreements, adjudications := [], [], [], [];
    }

    method CreateAttestation(a: Attestation)
      modifies this`attestations
      ensures attestations == old(attestations) + [a]
    {
      attestations := attestations + [a];
    }

    method CreateLabel(l: Label)
      modifies this`labels
      ensures labels == old(labels) + [l]
    {
      labels := labels + [l];
    }

    method CreateDisagreement(d: Disagreement)
      modifies this`disagreements
      ensures disagreements == old(disagreements) + [d]
    {
      disagreements := disagreements + [d];
    }

    method CreateAdjudication(a: Adjudication)
      modifies this`adjudications
      ensures adjudications == old(adjudications) + [a]
    {
      adjudications := adjudications + [a];
    }

    method ListLabels(caseId: string, kind: SubjectKind, subjectId: string) returns (found: seq<Label>)
      ensures found == LabelsOf(labels, caseId, kind, subjectId)
    {
      found := [];
      var i := 0;
      while i < |labels|
        invariant 0 <= i <= |labels|
        invariant found == LabelsOf(labels[..i], caseId, kind, subjectId)
      {
        assert labels[..i + 1][..i] == labels[..i];
        if SameSubject(labels[i], caseId, kind, subjectId) {
          found := found + [labels[i]];
        }
        i := i + 1;
      }
      assert labels[..i] == labels;
    }

    method ListDisagreements(primary: nat, independent: nat) returns (found: seq<Disagreement>)
      ensures found == DisagreementsOf(disagreements, primary, independent)
    {
      found := [];
      var i := 0;
      while i < |disagreements|
        invariant 0 <= i <= |disagreements|
        invariant found == DisagreementsOf(disagreements[..i], primary, independent)
      {
        assert disagreements[..i + 1][..i] == disagreements[..i];
        if disagreements[i].primaryLabelId == primary && disagreements[i].independentLabelId == independent {
          found := found + [disagreements[i]];
        }
        i := i + 1;
      }
      assert disagreements[..i] == disagreements;
    }

    method ListAdjudications(disagreement: nat) returns (found: seq<Adjudication>)
      ensures found == AdjudicationsOf(adjudications, disagreement)
    {
      found := [];
      var i := 0;
      while i < |adjudications|
        invariant 0 <= i <= |adjudications|
        invariant found == AdjudicationsOf(adjudications[..i], disagreement)
      {
        assert adjudications[..i + 1][..i] == adjudications[..i];
        if adjudications[i].disagreementId == disagreement {
          found := found + [adjudications[i]];
        }
        i := i + 1;
      }
      assert adjudications[..i] == adjudications;
    }
  }

  // tuple(item for item in disagreements if item.material)
  method KeepMaterial(disagreements: seq<Disagreement>) returns (material: seq<Disagreement>)
    ensures material == MaterialOnly(disagreements)
  {
    material := [];
    var i := 0;
    while i < |disagreements|
      invariant 0 <= i <= |disagreements|
      invariant material == MaterialOnly(disagreements[..i])
    {
      assert disagreements[..i + 1][..i] == disagreements[..i];
      if disagreements[i].material {
        material := material + [disagreements[i]];
      }
      i := i + 1;
    }
    assert disagreements[..i] == disagreements;
  }

  // The paths, in order, that are among the differing ones.
  function Among(paths: seq<string>, differing: set<string>): seq<string> {
    if paths == [] then []
    else
      var last := paths[|paths| - 1];
      Among(paths[..|paths| - 1], differing) + if last in differing then [last] else []
  }

  lemma {:induction false} AmongSorted(paths: seq<string>, differing: set<string>)
    requires StrictlySorted(paths)
    ensures StrictlySorted(Among(paths, differing))
    ensures forall x :: x in Among(paths, differing) <==> x in paths && x in differing
  {
    if paths != [] {
      var n := |paths| - 1;
      var chosen := Among(paths[..n], differing);
      AmongSorted(paths[..n], differing);
      forall k | 0 <= k < |chosen| ensures TextLe(chosen[k], paths[n]) && chosen[k] != paths[n] {
        assert chosen[k] in paths[..n];
      }
      assert paths == paths[..n] + [paths[n]];
    }
  }

  // Walking all the sorted paths visits the differing ones in sorted order.
  lemma AmongAll(all: set<string>, differing: set<string>)
    requires differing <= all
    ensures Among(SortedTexts(all), differing) == SortedTexts(differing)
  {
    AmongSorted(SortedTexts(all), differing);
    StrictlySortedIsUnique(Among(SortedTexts(all), differing), SortedTexts(differing));
  }

  lemma AppendAssociates<T>(a: seq<T>, b: seq<T>, x: T)
    ensures (a + b) + [x] == a + (b + [x])
  {
  }

  lemma DifferencesNext(p: Label, q: Label, f: map<string, Json>, g: map<string, Json>, material: set<string>,
                        paths: seq<string>, differing: set<string>, i: nat, next: nat)
    requires i < |paths|
    ensures var recorded := Differences(p, q, f, g, material, Among(paths[..i], differing), next);
            Differences(p, q, f, g, material, Among(paths[..i + 1], differing), next)
            == if paths[i] !in differing then recorded
               else recorded + [Difference(p, q, f, g, material, paths[i], next + |recorded|)]
  {
    var chosen := Among(paths[..i], differing);
    assert paths[..i + 1][..i] == paths[..i];
    assert (chosen + [paths[i]])[..|chosen|] == chosen && chosen + [] == chosen;
  }

  class EvaluationReviewService {
    const repository: ReviewRepository

    constructor (repository: ReviewRepository)
      ensures this.repository == repository
    {
      this.repository := repository;
    }

    method RecordAttestation(reviewerId: string, datasetVersion: string, rubricVersion: string, summary: string,
                             eligible: bool, independent: bool) returns (r: Result<nat, ReviewError>)
      modifies repository
      ensures (repository.Snapshot(), r)
              == ReviewStore.RecordAttestation(old(repository.Snapshot()), reviewerId, datasetVersion, rubricVersion,
                                               summary, eligible, independent)
    {
      if Blank(reviewerId) || Blank(datasetVersion) || Blank(rubricVersion) || Blank(summary) {
        return Err(BlankValue);
      }
      r := Ok(|repository.attestations|);
      repository.CreateAttestation(Attestation(
        Strip(reviewerId), Strip(datasetVersion), Strip(rubricVersion), Strip(summary), eligible, independent));
    }

    method AttestationFor(id: nat, reviewerId: string, datasetVersion: string, rubricVersion: string,
                          requireIndependent: bool) returns (r: Result<Attestation, ReviewError>)
      ensures r == ReviewStore.AttestationFor(repository.Snapshot(), id, reviewerId, datasetVersion, rubricVersion,
                                              requireIndependent)
    {
      if id >= |repository.attestations| { return Err(UnknownAttestation); }
      var a := repository.attestations[id];
      if !a.eligible { return Err(NotEligible); }
      if a.reviewerId != Strip(reviewerId) { return Err(OtherReviewer); }
      if a.datasetVersion != datasetVersion { return Err(OtherDataset); }
      if a.rubricVersion != rubricVersion { return Err(OtherRubric); }
      if requireIndependent && !a.independent { return Err(NotIndependent); }
      return Ok(a);
    }

    method Latest(caseId: string, kind: SubjectKind, subjectId: string, role: Role) returns (latest: Option<Label>)
      ensures latest == LatestLabel(repository.labels, caseId, kind, subjectId, role)
    {
      var found := repository.ListLabels(caseId, kind, subjectId);
      LabelsOfMembers(repository.labels, caseId, kind, subjectId);
      latest := None;
      var i := 0;
      while i < |found|
        invariant 0 <= i <= |found|
        invariant latest == LatestLabel(found[..i], caseId, kind, subjectId, role)
        invariant forall l :: l in found ==> SameSubject(l, caseId, kind, subjectId)
      {
        assert found[..i + 1] == found[..i] + [found[i]];
        LatestOfExtended(found[..i], found[i], caseId, kind, subjectId, role);
        if found[i].role == role && (latest.None? || LabelLe(latest.value, found[i])) {
          latest := Some(found[i]);
        }
        i := i + 1;
      }
      assert found[..i] == found;
      LatestOfListing(repository.labels, caseId, kind, subjectId, role);
    }

    method CreateLabel(d: Draft, now: int) returns (r: Result<Label, ReviewError>)
      modifies repository
      ensures (repository.Snapshot(), r) == ReviewStore.CreateLabel(old(repository.Snapshot()), d, now)
    {
      var error := DraftError(d);
      if error.Some? { return Err(error.value); }
      var content := Validate(d.subjectKind, d.labels).value;
      var prior := Latest(Strip(d.caseId), d.subjectKind, Strip(d.subjectId), d.role);
      if prior.Some? && prior.value.content == content { return Err(UnchangedRevision); }
      var created := NewLabel(d, |repository.labels|, content, prior, now);
      repository.CreateLabel(created);
      return Ok(created);
    }

    method SubmitPrimary(review: PrimaryReview, now: int) returns (r: Result<Label, ReviewError>)
      modifies repository
      ensures (repository.Snapshot(), r) == ReviewStore.SubmitPrimary(old(repository.Snapshot()), review, now)
    {
      var attested := AttestationFor(
        review.attestationId, review.reviewerId, review.datasetVersion, review.rubricVersion, false);
      if attested.Err? { return Err(attested.error); }
      r := CreateLabel(
        Draft(review.caseId, review.caseSha256, review.datasetVersion, review.rubricVersion, review.subjectKind,
              review.subjectId, Primary, review.reviewerId, review.attestationId, review.labels,
              review.candidateSha256, Some(review.packetSha256), None, None), now);
    }

    method SubmitIndependent(review: IndependentReview, now: int) returns (r: Result<Label, ReviewError>)
      modifies repository
      ensures (repository.Snapshot(), r) == ReviewStore.SubmitIndependent(old(repository.Snapshot()), review, now)
    {
      var primary := Latest(review.caseId, review.subjectKind, review.subjectId, Primary);
      if primary.None? { return Err(NoPrimaryReview); }
      var p := primary.value;
      if Strip(review.reviewerId) == p.reviewerId { return Err(SameReviewer); }
      var attested := AttestationFor(review.attestationId, review.reviewerId, p.datasetVersion, p.rubricVersion, true);
      if attested.Err? { return Err(attested.error); }
      r := CreateLabel(
        Draft(p.caseId, p.caseSha256, p.datasetVersion, p.rubricVersion, p.subjectKind, p.subjectId, Independent,
              review.reviewerId, review.attestationId, review.labels, None, Some(review.packetSha256),
              Some(p.id), None), now);
    }

    method Linked(independentId: nat) returns (r: Result<(Label, Label), ReviewError>)
      ensures r == LinkedPair(repository.Snapshot(), independentId)
    {
      if independentId >= |repository.labels| { return Err(UnknownLabel); }
      var q := repository.labels[independentId];
      if !q.role.Independent? { return Err(NotAnIndependentLabel); }
      if q.primaryLabelId.None? { return Err(NoPrimaryLink); }
      if q.primaryLabelId.value >= |repository.labels| { return Err(UnknownLabel); }
      return Ok((repository.labels[q.primaryLabelId.value], q));
    }

    method RecordMaterialDisagreements(independentId: nat) returns (r: Result<seq<Disagreement>, ReviewError>)
      modifies repository
      ensures (repository.Snapshot(), r)
              == ReviewStore.RecordMaterialDisagreements(old(repository.Snapshot()), independentId)
    {
      var linked := Linked(independentId);
      if linked.Err? { return Err(linked.error); }
      var (p, q) := linked.value;
      var existing := repository.ListDisagreements(p.id, q.id);
      if existing != [] { return Ok(existing); }
      var f := FlattenLabels(Obj(p.content.AsFields()));
      var g := FlattenLabels(Obj(q.content.AsFields()));
      var recorded := RecordDifferences(p, q, f, g, MaterialPaths(p.subjectKind),
                                         SortedTexts(f.Keys + g.Keys), DifferingEntries(f, g));
      AmongAll(f.Keys + g.Keys, DifferingEntries(f, g));
      return Ok(recorded);
    }

    // One record, in order, for each of the paths at which the labels differ.
    method RecordDifferences(p: Label, q: Label, f: map<string, Json>, g: map<string, Json>, material: set<string>,
                             paths: seq<string>, differing: set<string>) returns (recorded: seq<Disagreement>)
      modifies repository`disagreements
      ensures recorded == Differences(p, q, f, g, material, Among(paths, differing), |old(repository.disagreements)|)
      ensures repository.disagreements == old(repository.disagreements) + recorded
    {
      recorded := [];
      ghost var filed := repository.disagreements;
      var i := 0;
      while i < |paths|
        invariant 0 <= i <= |paths|
        invariant recorded == Differences(p, q, f, g, material, Among(paths[..i], differing), |filed|)
        invariant repository.disagreements == filed + recorded
      {
        DifferencesNext(p, q, f, g, material, paths, differing, i, |filed|);
        if paths[i] in differing {
          var d := Difference(p, q, f, g, material, paths[i], |repository.disagreements|);
          AppendAssociates(filed, recorded, d);
          repository.CreateDisagreement(d);
          recorded := recorded + [d];
        }
        i := i + 1;
      }
      assert paths[..i] == paths;
    }

    // Whether any of the disagreements already has an adjudication.
    method AnyAdjudicated(material: seq<Disagreement>) returns (any: bool)
      ensures any == SomeAdjudicated(repository.Snapshot(), material)
    {
      var i := 0;
      while i < |material|
        invariant 0 <= i <= |material|
        invariant forall k :: 0 <= k < i ==> AdjudicationsOf(repository.adjudications, material[k].id) == []
      {
        var found := repository.ListAdjudications(material[i].id);
        if found != [] { return true; }
        i := i + 1;
      }
      return false;
    }

    method Adjudicate(request: AdjudicationRequest, now: int) returns (r: Result<Label, ReviewError>)
      modifies repository
      ensures (repository.Snapshot(), r) == ReviewStore.Adjudicate(old(repository.Snapshot()), request, now)
    {
      var linked := Linked(request.independentId);
      if linked.Err? { return Err(linked.error); }
      var (p, q) := linked.value;
      if Strip(request.adjudicatorId) in {p.reviewerId, q.reviewerId} { return Err(SameReviewer); }
      var attested := AttestationFor(
        request.attestationId, request.adjudicatorId, p.datasetVersion, p.rubricVersion, false);
      if attested.Err? { return Err(attested.error); }
      var disagreements := repository.ListDisagreements(p.id, q.id);
      var material := KeepMaterial(disagreements);
      if material == [] { return Err(NoMaterialDisagreement); }
      if request.rationales.Keys != Ids(material) { return Err(WrongRationales); }
      var any := AnyAdjudicated(material);
      if any { return Err(AlreadyAdjudicated); }
      var filed := CreateLabel(AdjudicationDraft(p, q, request), now);
      if filed.Err? { return filed; }
      r := FileAdjudications(material, filed.value, request.adjudicatorId, request.rationales);
    }

    method FileAdjudications(material: seq<Disagreement>, resolved: Label, adjudicatorId: string,
                             rationales: map<nat, string>) returns (r: Result<Label, ReviewError>)
      requires Ids(material) <= rationales.Keys
      modifies repository
      ensures (repository.Snapshot(), r)
              == RecordAdjudications(old(repository.Snapshot()), material, resolved, adjudicatorId, rationales)
    {
      var i := 0;
      while i < |material|
        invariant 0 <= i <= |material|
        invariant Ids(material[i..]) <= rationales.Keys
        invariant RecordAdjudications(old(repository.Snapshot()), material, resolved, adjudicatorId, rationales)
                  == RecordAdjudications(repository.Snapshot(), material[i..], resolved, adjudicatorId, rationales)
      {
        assert material[i..][0] == material[i] && material[i..][1..] == material[i + 1..];
        assert material[i].id in Ids(material[i..]);
        var rationale := Strip(rationales[material[i].id]);
        if rationale == "" { return Err(BlankValue); }
        assert Ids(material[i + 1..]) <= Ids(material[i..]);
        repository.CreateAdjudication(Adjudication(
          |repository.adjudications|, material[i].id, resolved.id, Strip(adjudicatorId), rationale));
        i := i + 1;
      }
      return Ok(resolved);
    }

    method ApprovedFinalLabel(independentId: nat) returns (r: Result<Label, ReviewError>)
      modifies repository
      ensures Finalizes(old(repository.Snapshot()), independentId, repository.Snapshot(), r)
    {
      var linked := Linked(independentId);
      if linked.Err? { return Err(linked.error); }
      var (p, _) := linked.value;
      var found := RecordMaterialDisagreements(independentId);
      if found.Err? { return Err(found.error); }
      var material := KeepMaterial(found.value);
      if material == [] { return Ok(p); }
      var candidates := Candidates(material);
      if candidates == {} { return Err(UnresolvedDisagreement); }
      var pick :| pick in candidates;
      r := Approve(pick);
    }

    // The labels named by the adjudications of every one of the disagreements.
    method Candidates(material: seq<Disagreement>) returns (candidates: set<nat>)
      requires material != []
      ensures candidates == CommonLabels(repository.Snapshot(), material)
    {
      var common: Option<set<nat>> := None;
      var i := 0;
      while i < |material|
        invariant 0 <= i <= |material|
        invariant i == 0 ==> common == None
        invariant i > 0 ==> common == Some(CommonLabels(repository.Snapshot(), material[..i]))
      {
        var adjudications := repository.ListAdjudications(material[i].id);
        var ids := set a | a in adjudications :: a.adjudicatedLabelId;
        assert material[..i + 1][..i] == material[..i];
        common := Some(if common.None? then ids else common.value * ids);
        i := i + 1;
      }
      assert material[..i] == material;
      candidates := common.value;
    }

    method Approve(pick: nat) returns (r: Result<Label, ReviewError>)
      ensures r == Approved(repository.Snapshot(), pick)
    {
      if pick >= |repository.labels| { return Err(UnknownLabel); }
      if !repository.labels[pick].role.Adjudicated? { return Err(ApprovedNotAdjudicated); }
      return Ok(repository.labels[pick]);
    }
  }
}
