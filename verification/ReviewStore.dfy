// The append-only review evidence and what each service operation does to it.
// A table is the sequence of its records: an identifier is handed out once and
// is the position of its record, and nothing is ever replaced.
module ReviewStore {
  import opened Basics
  import opened JsonTree
  import opened JsonPointer
  import opened ReviewLabels

  datatype Role = Primary | Independent | Adjudicated

  datatype Attestation = Attestation(
    reviewerId: string, datasetVersion: string, rubricVersion: string,
    qualificationSummary: string, eligible: bool, independent: bool)

  datatype Label = Label(
    id: nat, caseId: string, caseSha256: string, datasetVersion: string, rubricVersion: string,
    subjectKind: SubjectKind, subjectId: string, role: Role, reviewerId: string, attestationId: nat,
    content: ReviewLabel, candidateSha256: Option<string>, packetSha256: Option<string>,
    revisionNumber: nat, parentRevisionId: Option<nat>,
    primaryLabelId: Option<nat>, independentLabelId: Option<nat>, createdAt: int)

  datatype Disagreement = Disagreement(
    id: nat, primaryLabelId: nat, independentLabelId: nat, fieldPath: string,
    primaryValue: Option<Json>, independentValue: Option<Json>, material: bool)

  datatype Adjudication = Adjudication(
    id: nat, disagreementId: nat, adjudicatedLabelId: nat, adjudicatorId: string, rationale: string)

  datatype Store = Store(
    attestations: seq<Attestation>, labels: seq<Label>,
    disagreements: seq<Disagreement>, adjudications: seq<Adjudication>)

  const EMPTY := Store([], [], [], [])

  datatype ReviewError =
    | BlankValue | NotSha256 | UnknownAttestation | NotEligible | OtherReviewer | OtherDataset | OtherRubric
    | NotIndependent | NoPrimaryReview | SameReviewer | UnknownLabel | NotAnIndependentLabel | NoPrimaryLink
    | NoMaterialDisagreement | WrongRationales | AlreadyAdjudicated | UnresolvedDisagreement
    | ApprovedNotAdjudicated | MissingHash | UnexpectedHash | InvalidLabel(error: LabelError) | UnchangedRevision

  // Evidence is only ever added.
  ghost predicate Extends(before: Store, after: Store) {
    && before.attestations <= after.attestations && before.labels <= after.labels
    && before.disagreements <= after.disagreements && before.adjudications <= after.adjudications
  }

  // ---- Reading ----

  predicate SameSubject(l: Label, caseId: string, kind: SubjectKind, subjectId: string) {
    l.caseId == caseId && l.subjectKind == kind && l.subjectId == subjectId
  }

  predicate LabelLe(a: Label, b: Label) {
    || a.revisionNumber < b.revisionNumber
    || (a.revisionNumber == b.revisionNumber
        && (a.createdAt < b.createdAt || (a.createdAt == b.createdAt && a.id <= b.id)))
  }

  function LatestLabel(labels: seq<Label>, caseId: string, kind: SubjectKind, subjectId: string, role: Role): Option<Label> {
    if labels == [] then None
    else
      var (rest, last) := (labels[..|labels| - 1], labels[|labels| - 1]);
      var earlier := LatestLabel(rest, caseId, kind, subjectId, role);
      if !SameSubject(last, caseId, kind, subjectId) || last.role != role then earlier
      else if earlier.None? || LabelLe(earlier.value, last) then Some(last)
      else earlier
  }

  function DisagreementsOf(disagreements: seq<Disagreement>, primary: nat, independent: nat): seq<Disagreement> {
    if disagreements == [] then []
    else
      var last := disagreements[|disagreements| - 1];
      DisagreementsOf(disagreements[..|disagreements| - 1], primary, independent)
      + if last.primaryLabelId == primary && last.independentLabelId == independent then [last] else []
  }

  function MaterialOnly(disagreements: seq<Disagreement>): seq<Disagreement> {
    if disagreements == [] then []
    else
      var last := disagreements[|disagreements| - 1];
      MaterialOnly(disagreements[..|disagreements| - 1]) + if last.material then [last] else []
  }

  function AdjudicationsOf(adjudications: seq<Adjudication>, disagreement: nat): seq<Adjudication> {
    if adjudications == [] then []
    else
      var last := adjudications[|adjudications| - 1];
      AdjudicationsOf(adjudications[..|adjudications| - 1], disagreement)
      + if last.disagreementId == disagreement then [last] else []
  }

  predicate IsSha256(s: string) {
    Hex(s, 64)
  }

  function AttestationFor(store: Store, id: nat, reviewerId: string, datasetVersion: string, rubricVersion: string,
                          requireIndependent: bool): Result<Attestation, ReviewError> {
    if id >= |store.attestations| then Err(UnknownAttestation)
    else
      var a := store.attestations[id];
      if !a.eligible then Err(NotEligible)
      else if a.reviewerId != Strip(reviewerId) then Err(OtherReviewer)
      else if a.datasetVersion != datasetVersion then Err(OtherDataset)
      else if a.rubricVersion != rubricVersion then Err(OtherRubric)
      else if requireIndependent && !a.independent then Err(NotIndependent)
      else Ok(a)
  }

  // ---- Writing ----

  function RecordAttestation(store: Store, reviewerId: string, datasetVersion: string, rubricVersion: string,
                             qualificationSummary: string, eligible: bool, independent: bool)
    : (Store, Result<nat, ReviewError>)
  {
    if Blank(reviewerId) || Blank(datasetVersion) || Blank(rubricVersion) || Blank(qualificationSummary)
    then (store, Err(BlankValue))
    else
      var a := Attestation(Strip(reviewerId), Strip(datasetVersion), Strip(rubricVersion),
                           Strip(qualificationSummary), eligible, independent);
      (store.(attestations := store.attestations + [a]), Ok(|store.attestations|))
  }

  // The arguments with which the three kinds of review create a label.
  datatype Draft = Draft(
    caseId: string, caseSha256: string, datasetVersion: string, rubricVersion: string,
    subjectKind: SubjectKind, subjectId: string, role: Role, reviewerId: string, attestationId: nat,
    labels: Fields, candidateSha256: Option<string>, packetSha256: Option<string>,
    primaryLabelId: Option<nat>, independentLabelId: Option<nat>)

  function Normalized(sha: Option<string>): Option<string> {
    if sha.Some? then Some(Strip(sha.value)) else None
  }

  function DraftError(d: Draft): Option<ReviewError> {
    if Blank(d.caseId) || Blank(d.subjectId) || Blank(d.datasetVersion) || Blank(d.rubricVersion) || Blank(d.reviewerId)
    then Some(BlankValue)
    else if !IsSha256(Strip(d.caseSha256))
         || (d.candidateSha256.Some? && !IsSha256(Strip(d.candidateSha256.value)))
         || (d.packetSha256.Some? && !IsSha256(Strip(d.packetSha256.value)))
    then Some(NotSha256)
    else if d.role.Primary? && (d.candidateSha256.None? || d.packetSha256.None?) then Some(MissingHash)
    else if d.role.Independent? && d.candidateSha256.Some? then Some(UnexpectedHash)
    else if d.role.Independent? && d.packetSha256.None? then Some(MissingHash)
    else if d.role.Adjudicated? && (d.candidateSha256.Some? || d.packetSha256.Some?) then Some(UnexpectedHash)
    else match Validate(d.subjectKind, d.labels)
      case Err(e) => Some(InvalidLabel(e))
      case Ok(_) => None
  }

  // A revision names the latest label of its subject and role as its parent.
  function NewLabel(d: Draft, id: nat, content: ReviewLabel, prior: Option<Label>, now: int): Label {
    Label(id, Strip(d.caseId), Strip(d.caseSha256), Strip(d.datasetVersion), Strip(d.rubricVersion),
          d.subjectKind, Strip(d.subjectId), d.role, Strip(d.reviewerId), d.attestationId,
          content, Normalized(d.candidateSha256), Normalized(d.packetSha256),
          if prior.None? then 1 else prior.value.revisionNumber + 1,
          if prior.None? then None else Some(prior.value.id),
          d.primaryLabelId, d.independentLabelId, now)
  }

  function CreateLabel(store: Store, d: Draft, now: int): (Store, Result<Label, ReviewError>) {
    var error := DraftError(d);
    if error.Some? then (store, Err(error.value))
    else
      var content := Validate(d.subjectKind, d.labels).value;
      var prior := LatestLabel(store.labels, Strip(d.caseId), d.subjectKind, Strip(d.subjectId), d.role);
      if prior.Some? && prior.value.content == content then (store, Err(UnchangedRevision))
      else
        var created := NewLabel(d, |store.labels|, content, prior, now);
        (store.(labels := store.labels + [created]), Ok(created))
  }

  datatype PrimaryReview = PrimaryReview(
    caseId: string, caseSha256: string, datasetVersion: string, rubricVersion: string,
    subjectKind: SubjectKind, subjectId: string, reviewerId: string, attestationId: nat,
    labels: Fields, packetSha256: string, candidateSha256: Option<string>)

  function SubmitPrimary(store: Store, r: PrimaryReview, now: int): (Store, Result<Label, ReviewError>) {
    var attested := AttestationFor(store, r.attestationId, r.reviewerId, r.datasetVersion, r.rubricVersion, false);
    if attested.Err? then (store, Err(attested.error))
    else CreateLabel(store, Draft(
      r.caseId, r.caseSha256, r.datasetVersion, r.rubricVersion, r.subjectKind, r.subjectId, Primary,
      r.reviewerId, r.attestationId, r.labels, r.candidateSha256, Some(r.packetSha256), None, None), now)
  }

  datatype IndependentReview = IndependentReview(
    caseId: string, subjectKind: SubjectKind, subjectId: string, reviewerId: string, attestationId: nat,
    labels: Fields, packetSha256: string)

  function SubmitIndependent(store: Store, r: IndependentReview, now: int): (Store, Result<Label, ReviewError>) {
    var primary := LatestLabel(store.labels, r.caseId, r.subjectKind, r.subjectId, Primary);
    if primary.None? then (store, Err(NoPrimaryReview))
    else
      var p := primary.value;
      if Strip(r.reviewerId) == p.reviewerId then (store, Err(SameReviewer))
      else
        var attested := AttestationFor(store, r.attestationId, r.reviewerId, p.datasetVersion, p.rubricVersion, true);
        if attested.Err? then (store, Err(attested.error))
        else CreateLabel(store, Draft(
          p.caseId, p.caseSha256, p.datasetVersion, p.rubricVersion, p.subjectKind, p.subjectId, Independent,
          r.reviewerId, r.attestationId, r.labels, None, Some(r.packetSha256), Some(p.id), None), now)
  }

  // The independent label and the primary label it was made against.
  function LinkedPair(store: Store, independentId: nat): Result<(Label, Label), ReviewError> {
    if independentId >= |store.labels| then Err(UnknownLabel)
    else
      var q := store.labels[independentId];
      if !q.role.Independent? then Err(NotAnIndependentLabel)
      else if q.primaryLabelId.None? then Err(NoPrimaryLink)
      else if q.primaryLabelId.value >= |store.labels| then Err(UnknownLabel)
      else Ok((store.labels[q.primaryLabelId.value], q))
  }

  ghost function FlatOf(l: Label): map<string, Json> {
    Flatten(Obj(l.content.AsFields()))
  }

  // The two labels, flattened to `f` and `g`, differ at `path`.
  function Difference(p: Label, q: Label, f: map<string, Json>, g: map<string, Json>, material: set<string>,
                      path: string, id: nat): Disagreement
  {
    Disagreement(id, p.id, q.id, path, Entry(f, path), Entry(g, path), path in material)
  }

  ghost function DisagreementAt(p: Label, q: Label, path: string, id: nat): Disagreement {
    Difference(p, q, FlatOf(p), FlatOf(q), MaterialPaths(p.subjectKind), path, id)
  }

  function Differences(p: Label, q: Label, f: map<string, Json>, g: map<string, Json>, material: set<string>,
                       paths: seq<string>, next: nat): (ds: seq<Disagreement>)
    ensures |ds| == |paths|
  {
    if paths == [] then []
    else
      var n := |paths| - 1;
      Differences(p, q, f, g, material, paths[..n], next) + [Difference(p, q, f, g, material, paths[n], next + n)]
  }

  lemma {:induction false} DifferencesAt(p: Label, q: Label, f: map<string, Json>, g: map<string, Json>,
                                         material: set<string>, paths: seq<string>, next: nat, k: nat)
    requires k < |paths|
    ensures Differences(p, q, f, g, material, paths, next)[k] == Difference(p, q, f, g, material, paths[k], next + k)
  {
    if k < |paths| - 1 {
      DifferencesAt(p, q, f, g, material, paths[..|paths| - 1], next, k);
    }
  }

  ghost function NewDisagreements(p: Label, q: Label, paths: seq<string>, next: nat): seq<Disagreement> {
    Differences(p, q, FlatOf(p), FlatOf(q), MaterialPaths(p.subjectKind), paths, next)
  }

  ghost function DifferingPathsOf(p: Label, q: Label): set<string> {
    DifferingPaths(p.content.AsFields(), q.content.AsFields())
  }

  ghost function RecordMaterialDisagreements(store: Store, independentId: nat)
    : (Store, Result<seq<Disagreement>, ReviewError>)
  {
    match LinkedPair(store, independentId)
    case Err(e) => (store, Err(e))
    case Ok((p, q)) =>
      var existing := DisagreementsOf(store.disagreements, p.id, q.id);
      if existing != [] then (store, Ok(existing))
      else
        var recorded := NewDisagreements(p, q, SortedTexts(DifferingPathsOf(p, q)), |store.disagreements|);
        (store.(disagreements := store.disagreements + recorded), Ok(recorded))
  }

  function Ids(disagreements: seq<Disagreement>): set<nat> {
    set d | d in disagreements :: d.id
  }

  // One adjudication after the other, until a blank rationale aborts the call.
  function RecordAdjudications(store: Store, material: seq<Disagreement>, resolved: Label, adjudicatorId: string,
                               rationales: map<nat, string>): (Store, Result<Label, ReviewError>)
    requires Ids(material) <= rationales.Keys
    decreases |material|
  {
    if material == [] then (store, Ok(resolved))
    else
      assert material[0].id in Ids(material);
      var rationale := Strip(rationales[material[0].id]);
      if rationale == "" then (store, Err(BlankValue))
      else
        assert Ids(material[1..]) <= Ids(material);
        var a := Adjudication(|store.adjudications|, material[0].id, resolved.id, Strip(adjudicatorId), rationale);
        RecordAdjudications(store.(adjudications := store.adjudications + [a]), material[1..], resolved, adjudicatorId, rationales)
  }

  datatype AdjudicationRequest = AdjudicationRequest(
    independentId: nat, adjudicatorId: string, attestationId: nat, labels: Fields, rationales: map<nat, string>)

  function AdjudicationDraft(p: Label, q: Label, r: AdjudicationRequest): Draft {
    Draft(p.caseId, p.caseSha256, p.datasetVersion, p.rubricVersion, p.subjectKind, p.subjectId, Adjudicated,
          r.adjudicatorId, r.attestationId, r.labels, None, None, Some(p.id), Some(q.id))
  }

  predicate SomeAdjudicated(store: Store, material: seq<Disagreement>) {
    exists i :: 0 <= i < |material| && AdjudicationsOf(store.adjudications, material[i].id) != []
  }

  function Adjudicate(store: Store, r: AdjudicationRequest, now: int): (Store, Result<Label, ReviewError>) {
    match LinkedPair(store, r.independentId)
    case Err(e) => (store, Err(e))
    case Ok((p, q)) =>
      if Strip(r.adjudicatorId) in {p.reviewerId, q.reviewerId} then (store, Err(SameReviewer))
      else
        var attested := AttestationFor(store, r.attestationId, r.adjudicatorId, p.datasetVersion, p.rubricVersion, false);
        if attested.Err? then (store, Err(attested.error))
        else
          var material := MaterialOnly(DisagreementsOf(store.disagreements, p.id, q.id));
          if material == [] then (store, Err(NoMaterialDisagreement))
          else if r.rationales.Keys != Ids(material) then (store, Err(WrongRationales))
          else if SomeAdjudicated(store, material) then (store, Err(AlreadyAdjudicated))
          else
            var (next, filed) := CreateLabel(store, AdjudicationDraft(p, q, r), now);
            if filed.Err? then (store, filed)
            else RecordAdjudications(next, material, filed.value, r.adjudicatorId, r.rationales)
  }

  // The labels that every one of the disagreements was adjudicated to.
  function CommonLabels(store: Store, material: seq<Disagreement>): set<nat>
    requires material != []
  {
    var adjudications := AdjudicationsOf(store.adjudications, material[|material| - 1].id);
    var last := set a | a in adjudications :: a.adjudicatedLabelId;
    if |material| == 1 then last else CommonLabels(store, material[..|material| - 1]) * last
  }

  function Approved(store: Store, pick: nat): Result<Label, ReviewError> {
    if pick >= |store.labels| then Err(UnknownLabel)
    else if !store.labels[pick].role.Adjudicated? then Err(ApprovedNotAdjudicated)
    else Ok(store.labels[pick])
  }

  // `pick` is the label the source takes out of the common ones.
  ghost predicate Approves(store: Store, material: seq<Disagreement>, p: Label, r: Result<Label, ReviewError>) {
    if material == [] then r == Ok(p)
    else if CommonLabels(store, material) == {} then r == Err(UnresolvedDisagreement)
    else exists pick :: pick in CommonLabels(store, material) && r == Approved(store, pick)
  }

  // Finalization records missing disagreements first, and then decides.
  ghost predicate Finalizes(store: Store, independentId: nat, after: Store, r: Result<Label, ReviewError>) {
    var (recorded, found) := RecordMaterialDisagreements(store, independentId);
    && after == recorded
    && match found
       case Err(e) => r == Err(e)
       case Ok(disagreements) =>
         LinkedPair(store, independentId).Ok?
         && Approves(recorded, MaterialOnly(disagreements), LinkedPair(store, independentId).value.0, r)
  }
}
