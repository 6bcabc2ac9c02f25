// The two ways in which a blank rationale spoils an adjudication, at a run that
// gets there and at the boundary of each.
module ReviewStuck {
  import opened Basics
  import opened JsonTree
  import opened JsonPointer
  import opened ReviewLabels
  import opened LabelContents
  import opened ReviewStore
  import opened ReviewInvariant
  import opened ReviewTheorems

  // ---- Any pair with two material disagreements can get stuck ----

  // Answers the first disagreement and leaves the others blank.
  function OneAnswer(material: seq<Disagreement>): (rationales: map<nat, string>)
    requires material != []
    ensures rationales.Keys == Ids(material)
  {
    map id | id in Ids(material) :: if id == material[0].id then "x" else " "
  }

  lemma OneIsAnswered(material: seq<Disagreement>)
    requires |material| > 1 && material[0].id != material[1].id
    ensures Answered(material, OneAnswer(material)) == 1
  {
    assert material[0].id in Ids(material) && material[1].id in Ids(material);
    assert Strip("x") == "x" && LStrip(" ") == "";
    assert material[1..][0] == material[1];
  }

  function HalfAnswered(r: AdjudicationRequest, material: seq<Disagreement>): AdjudicationRequest
    requires material != []
  {
    r.(rationales := OneAnswer(material))
  }

  lemma OneAnswerSticks(store: Store, half: AdjudicationRequest, now: int, p: nat, q: nat)
    requires Sound(store) && Files(store, half, now)
    requires LinkedPair(store, half.independentId).value.0.id == p && LinkedPair(store, half.independentId).value.1.id == q
    requires |MaterialOf(store, p, q)| > 1 && half.rationales == OneAnswer(MaterialOf(store, p, q))
    ensures Stuck(Adjudicate(store, half, now).0, p, q)
  {
    MaterialIsDistinct(store, p, q);
    OneIsAnswered(MaterialOf(store, p, q));
    BlankRationaleSticksThePair(store, half, now);
  }

  // An adjudication that would be filed sticks its pair when it is sent with
  // one answer only.
  lemma HalfAnsweredSticks(store: Store, r: AdjudicationRequest, now: int)
    requires Sound(store) && Files(store, r, now)
    requires var (p, q) := LinkedPair(store, r.independentId).value; |MaterialOf(store, p.id, q.id)| > 1
    ensures var (p, q) := LinkedPair(store, r.independentId).value;
            var half := HalfAnswered(r, MaterialOf(store, p.id, q.id));
            Files(store, half, now) && Stuck(Adjudicate(store, half, now).0, p.id, q.id)
  {
    var (p, q) := LinkedPair(store, r.independentId).value;
    var half := HalfAnswered(r, MaterialOf(store, p.id, q.id));
    assert AdjudicationDraft(p, q, half) == AdjudicationDraft(p, q, r);
    OneAnswerSticks(store, half, now, p.id, q.id);
  }

  // ---- Requests that are accepted ----

  ghost predicate Judges(kind: SubjectKind, labels: Fields, content: ReviewLabel) {
    Validate(kind, labels) == Ok(content)
  }

  predicate Digest(s: string) {
    IsSha256(s) && Stripped(s)
  }

  ghost predicate GoodTexts(d: Draft) {
    !Blank(d.caseId) && !Blank(d.subjectId) && !Blank(d.datasetVersion) && !Blank(d.rubricVersion) && !Blank(d.reviewerId)
  }

  ghost predicate GoodHash(h: Option<string>) {
    h.Some? ==> IsSha256(Strip(h.value))
  }

  ghost predicate GoodHashes(d: Draft) {
    && GoodHash(Some(d.caseSha256)) && GoodHash(d.candidateSha256) && GoodHash(d.packetSha256)
    && (d.candidateSha256.Some? <==> d.role.Primary?) && (d.packetSha256.None? <==> d.role.Adjudicated?)
  }

  lemma GoodDraft(d: Draft)
    requires GoodTexts(d) && GoodHashes(d) && Validate(d.subjectKind, d.labels).Ok?
    ensures DraftError(d).None?
  {
  }

  ghost predicate Accepted(d: Draft, content: ReviewLabel) {
    DraftError(d).None? && Judges(d.subjectKind, d.labels, content)
  }

  lemma DraftIsAccepted(d: Draft, content: ReviewLabel)
    requires Text(d.caseId) && Text(d.subjectId) && Text(d.datasetVersion) && Text(d.rubricVersion) && Text(d.reviewerId)
    requires Digest(d.caseSha256) && Judges(d.subjectKind, d.labels, content)
    requires d.role.Primary? ==> d.candidateSha256 == d.packetSha256 == Some(d.caseSha256)
    requires d.role.Independent? ==> d.candidateSha256 == None && d.packetSha256 == Some(d.caseSha256)
    requires d.role.Adjudicated? ==> d.candidateSha256 == d.packetSha256 == None
    ensures Accepted(d, content)
  {
    GoodDraft(d);
  }

  // An accepted draft becomes the first label of its subject and role.
  lemma FirstOfItsRole(store: Store, d: Draft, content: ReviewLabel, now: int)
    requires Accepted(d, content)
    requires LatestLabel(store.labels, Strip(d.caseId), d.subjectKind, Strip(d.subjectId), d.role) == None
    ensures var l := NewLabel(d, |store.labels|, content, None, now);
            CreateLabel(store, d, now) == (store.(labels := store.labels + [l]), Ok(l))
  {
  }

  lemma LatestOfOne(l: Label, role: Role)
    ensures LatestLabel([l], l.caseId, l.subjectKind, l.subjectId, role) == if l.role == role then Some(l) else None
  {
    assert [l][..0] == [];
  }

  lemma LatestOfTwo(l: Label, m: Label, role: Role)
    requires SameSubject(m, l.caseId, l.subjectKind, l.subjectId) && l.role != role && m.role != role
    ensures LatestLabel([l, m], l.caseId, l.subjectKind, l.subjectId, role) == None
  {
    LatestOfOne(l, role);
    assert [l, m][..1] == [l];
  }

  function PrimaryOf(r: PrimaryReview, content: ReviewLabel, now: int): Label {
    Label(0, r.caseId, r.caseSha256, r.datasetVersion, r.rubricVersion, r.subjectKind, r.subjectId, Primary,
          r.reviewerId, r.attestationId, content, Some(r.caseSha256), Some(r.caseSha256), 1, None, None, None, now)
  }

  lemma ReviewedFirst(store: Store, r: PrimaryReview, content: ReviewLabel, now: int)
    requires Text(r.caseId) && Text(r.subjectId) && Text(r.datasetVersion) && Text(r.rubricVersion) && Text(r.reviewerId)
    requires Digest(r.caseSha256) && r.candidateSha256 == Some(r.caseSha256) && r.packetSha256 == r.caseSha256
    requires Judges(r.subjectKind, r.labels, content) && store.labels == []
    requires AttestationFor(store, r.attestationId, r.reviewerId, r.datasetVersion, r.rubricVersion, false).Ok?
    ensures SubmitPrimary(store, r, now).0 == store.(labels := [PrimaryOf(r, content, now)])
  {
    var d := Draft(
      r.caseId, r.caseSha256, r.datasetVersion, r.rubricVersion, r.subjectKind, r.subjectId, Primary,
      r.reviewerId, r.attestationId, r.labels, r.candidateSha256, Some(r.packetSha256), None, None);
    DraftIsAccepted(d, content);
    FirstOfItsRole(store, d, content, now);
  }

  function IndependentOf(p: Label, r: IndependentReview, content: ReviewLabel, now: int): Label {
    Label(1, p.caseId, p.caseSha256, p.datasetVersion, p.rubricVersion, p.subjectKind, p.subjectId, Independent,
          r.reviewerId, r.attestationId, content, None, Some(p.caseSha256), 1, None, Some(p.id), None, now)
  }

  ghost predicate WellDescribed(l: Label) {
    && Text(l.caseId) && Text(l.subjectId) && Text(l.datasetVersion) && Text(l.rubricVersion) && Text(l.reviewerId)
    && Digest(l.caseSha256)
  }

  function IndependentDraft(p: Label, r: IndependentReview): Draft {
    Draft(p.caseId, p.caseSha256, p.datasetVersion, p.rubricVersion, p.subjectKind, p.subjectId, Independent,
          r.reviewerId, r.attestationId, r.labels, None, Some(r.packetSha256), Some(p.id), None)
  }

  lemma IndependentIsFiled(store: Store, p: Label, r: IndependentReview, now: int)
    requires LatestLabel(store.labels, r.caseId, r.subjectKind, r.subjectId, Primary) == Some(p)
    requires Strip(r.reviewerId) != p.reviewerId
    requires AttestationFor(store, r.attestationId, r.reviewerId, p.datasetVersion, p.rubricVersion, true).Ok?
    ensures SubmitIndependent(store, r, now) == CreateLabel(store, IndependentDraft(p, r), now)
  {
  }

  lemma IndependentIsNew(p: Label, r: IndependentReview, content: ReviewLabel, now: int)
    requires WellDescribed(p) && Text(r.reviewerId) && r.packetSha256 == p.caseSha256
    ensures NewLabel(IndependentDraft(p, r), 1, content, None, now) == IndependentOf(p, r, content, now)
  {
  }

  lemma ReviewedAgain(store: Store, p: Label, r: IndependentReview, content: ReviewLabel, now: int)
    requires store.labels == [p] && p.role.Primary? && SameSubject(p, r.caseId, r.subjectKind, r.subjectId)
    requires WellDescribed(p) && Text(r.reviewerId) && r.reviewerId != p.reviewerId && r.packetSha256 == p.caseSha256
    requires Judges(p.subjectKind, r.labels, content)
    requires AttestationFor(store, r.attestationId, r.reviewerId, p.datasetVersion, p.rubricVersion, true).Ok?
    ensures SubmitIndependent(store, r, now).0 == store.(labels := [p, IndependentOf(p, r, content, now)])
  {
    LatestOfOne(p, Primary);
    IndependentIsFiled(store, p, r, now);
    IndependentIsCreated(store, p, r, content, now);
  }

  lemma IndependentIsCreated(store: Store, p: Label, r: IndependentReview, content: ReviewLabel, now: int)
    requires store.labels == [p] && p.role.Primary? && WellDescribed(p)
    requires Text(r.reviewerId) && r.packetSha256 == p.caseSha256 && Judges(p.subjectKind, r.labels, content)
    ensures CreateLabel(store, IndependentDraft(p, r), now).0 == store.(labels := [p, IndependentOf(p, r, content, now)])
  {
    IndependentIsAccepted(p, r, content);
    IndependentIsFirst(store, p, r);
    FirstOfItsRole(store, IndependentDraft(p, r), content, now);
    IndependentIsNew(p, r, content, now);
  }

  lemma IndependentIsAccepted(p: Label, r: IndependentReview, content: ReviewLabel)
    requires WellDescribed(p) && Text(r.reviewerId) && r.packetSha256 == p.caseSha256
    requires Judges(p.subjectKind, r.labels, content)
    ensures Accepted(IndependentDraft(p, r), content)
  {
    DraftIsAccepted(IndependentDraft(p, r), content);
  }

  lemma IndependentIsFirst(store: Store, p: Label, r: IndependentReview)
    requires store.labels == [p] && p.role.Primary? && WellDescribed(p)
    ensures var d := IndependentDraft(p, r);
            LatestLabel(store.labels, Strip(d.caseId), d.subjectKind, Strip(d.subjectId), d.role) == None
  {
    LatestOfOne(p, Independent);
  }

  // Two linked labels with no disagreement on record yet.
  ghost predicate LinkedOnly(store: Store, p: Label, q: Label) {
    && store.labels == [p, q] && p.id == 0 && q.id == 1 && q.role.Independent? && q.primaryLabelId == Some(0)
    && store.adjudications == []
  }

  lemma OwnDisagreements(p: Label, q: Label)
    ensures DisagreementsOf(AllDisagreements(p, q, 0), p.id, q.id) == AllDisagreements(p, q, 0)
  {
    NewDisagreementsOfPair(p, q, SortedTexts(DifferingPathsOf(p, q)), 0);
    DisagreementsOfUniform(AllDisagreements(p, q, 0), p.id, q.id, true);
  }

  lemma ComparedPair(store: Store, p: Label, q: Label)
    requires LinkedOnly(store, p, q) && store.disagreements == []
    ensures RecordMaterialDisagreements(store, 1).0 == store.(disagreements := AllDisagreements(p, q, 0))
  {
    assert LinkedPair(store, 1) == Ok((p, q));
    assert [] + AllDisagreements(p, q, 0) == AllDisagreements(p, q, 0);
  }

  lemma SettlementFiles(store: Store, p: Label, q: Label, r: AdjudicationRequest, content: ReviewLabel, now: int)
    requires LinkedOnly(store, p, q) && p.role.Primary? && SameSubject(q, p.caseId, p.subjectKind, p.subjectId)
    requires WellDescribed(p) && r.independentId == 1 && Judges(p.subjectKind, r.labels, content)
    requires Text(r.adjudicatorId) && r.adjudicatorId !in {p.reviewerId, q.reviewerId}
    requires AttestationFor(store, r.attestationId, r.adjudicatorId, p.datasetVersion, p.rubricVersion, false).Ok?
    requires MaterialOf(store, 0, 1) != [] && r.rationales.Keys == Ids(MaterialOf(store, 0, 1))
    ensures Files(store, r, now)
  {
    var d := AdjudicationDraft(p, q, r);
    LatestOfTwo(p, q, Adjudicated);
    DraftIsAccepted(d, content);
    FirstOfItsRole(store, d, content, now);
    assert LinkedPair(store, 1) == Ok((p, q));
  }

  // ---- Recorded differences ----

  ghost predicate MaterialDifference(p: Label, q: Label, path: string) {
    path in DifferingPathsOf(p, q) && path in MaterialPaths(p.subjectKind)
  }

  lemma DifferenceIsRecorded(p: Label, q: Label, path: string) returns (d: Disagreement)
    requires MaterialDifference(p, q, path)
    ensures d in MaterialOnly(AllDisagreements(p, q, 0)) && d.fieldPath == path
  {
    var paths := SortedTexts(DifferingPathsOf(p, q));
    var i :| 0 <= i < |paths| && paths[i] == path;
    d := AllDisagreements(p, q, 0)[i];
    DifferencesAt(p, q, FlatOf(p), FlatOf(q), MaterialPaths(p.subjectKind), paths, 0, i);
    MaterialOnlyMembers(AllDisagreements(p, q, 0), d);
  }

  lemma TwoAreMaterial(p: Label, q: Label, a: string, b: string)
    requires a != b && MaterialDifference(p, q, a) && MaterialDifference(p, q, b)
    ensures |MaterialOnly(AllDisagreements(p, q, 0))| > 1
  {
    var d := DifferenceIsRecorded(p, q, a);
    var e := DifferenceIsRecorded(p, q, b);
    var material := MaterialOnly(AllDisagreements(p, q, 0));
    var i :| 0 <= i < |material| && material[i] == d;
    var j :| 0 <= j < |material| && material[j] == e;
    assert i != j;
  }

  // ---- A run that ends with a stuck pair ----

  // Two reviews of one subject that differ in at least two material fields, and
  // an adjudication by a third person.
  datatype Scene = Scene(
    first: PrimaryReview, second: IndependentReview, third: AdjudicationRequest, summary: string,
    primary: ReviewLabel, independent: ReviewLabel, adjudicated: ReviewLabel)
  {
    predicate Described() {
      && Text(first.caseId) && Text(first.subjectId) && Text(first.datasetVersion) && Text(first.rubricVersion)
      && Text(first.reviewerId) && Text(second.reviewerId) && Text(third.adjudicatorId) && Text(summary)
      && Digest(first.caseSha256) && first.candidateSha256 == Some(first.caseSha256)
      && first.packetSha256 == second.packetSha256 == first.caseSha256
      && second.caseId == first.caseId && second.subjectKind == first.subjectKind && second.subjectId == first.subjectId
      && second.reviewerId != first.reviewerId && third.adjudicatorId !in {first.reviewerId, second.reviewerId}
      && first.attestationId == 0 && second.attestationId == 1 && third.attestationId == 2 && third.independentId == 1
    }

    ghost predicate Judged() {
      && Judges(first.subjectKind, first.labels, primary) && Judges(first.subjectKind, second.labels, independent)
      && Judges(first.subjectKind, third.labels, adjudicated)
    }

    ghost predicate Disputed() {
      exists a, b :: a != b && MaterialDifference(P(), Q(), a) && MaterialDifference(P(), Q(), b)
    }

    function P(): Label {
      PrimaryOf(first, primary, 0)
    }

    function Q(): Label {
      IndependentOf(P(), second, independent, 1)
    }

    function AttestationOf(name: string): Attestation {
      Attestation(name, first.datasetVersion, first.rubricVersion, summary, true, true)
    }

    function Attested(): Store {
      Store([AttestationOf(first.reviewerId), AttestationOf(second.reviewerId), AttestationOf(third.adjudicatorId)],
            [], [], [])
    }

    function Reviewed(): Store {
      Attested().(labels := [P(), Q()])
    }

    ghost function Compared(): Store {
      Reviewed().(disagreements := AllDisagreements(P(), Q(), 0))
    }

    function AttestBy(name: string): Request {
      Attest(name, first.datasetVersion, first.rubricVersion, summary, true, true)
    }

    // The third reviewer's adjudication, with one answer.
    ghost function HalfSettled(): AdjudicationRequest
      requires MaterialOf(Compared(), 0, 1) != []
    {
      HalfAnswered(third, MaterialOf(Compared(), 0, 1))
    }
  }

  // Three attestations, two reviews and a comparison.
  predicate Prepares(x: Scene, requests: seq<Request>) {
    && |requests| == 6
    && requests[0] == x.AttestBy(x.first.reviewerId)
    && requests[1] == x.AttestBy(x.second.reviewerId)
    && requests[2] == x.AttestBy(x.third.adjudicatorId)
    && requests[3] == ReviewFirst(x.first, 0)
    && requests[4] == ReviewAgain(x.second, 1)
    && requests[5] == Compare(1)
  }

  lemma RunNext(requests: seq<Request>, k: nat, store: Store)
    requires k < |requests| && RunFrom(EMPTY, requests[..k]) == store
    ensures RunFrom(EMPTY, requests[..k + 1]) == After(store, requests[k])
  {
    assert requests[..k + 1][..k] == requests[..k];
  }

  lemma AttestOne(x: Scene, store: Store, name: string)
    requires x.Described() && Text(name)
    ensures After(store, x.AttestBy(name)) == store.(attestations := store.attestations + [x.AttestationOf(name)])
  {
  }

  lemma AttestNext(x: Scene, requests: seq<Request>, k: nat, store: Store, name: string)
    requires x.Described() && Text(name) && k < |requests| && requests[k] == x.AttestBy(name)
    requires RunFrom(EMPTY, requests[..k]) == store
    ensures RunFrom(EMPTY, requests[..k + 1]) == store.(attestations := store.attestations + [x.AttestationOf(name)])
  {
    RunNext(requests, k, store);
    AttestOne(x, store, name);
  }

  lemma AttestAll(x: Scene, requests: seq<Request>)
    requires x.Described() && Prepares(x, requests)
    ensures RunFrom(EMPTY, requests[..3]) == x.Attested()
  {
    var (a, b, c) := (x.first.reviewerId, x.second.reviewerId, x.third.adjudicatorId);
    assert RunFrom(EMPTY, requests[..0]) == EMPTY;
    AttestNext(x, requests, 0, EMPTY, a);
    AttestNext(x, requests, 1, Store([x.AttestationOf(a)], [], [], []), b);
    AttestNext(x, requests, 2, Store([x.AttestationOf(a), x.AttestationOf(b)], [], [], []), c);
  }

  lemma ReviewerIsAttested(x: Scene, store: Store, id: nat, name: string, independent: bool)
    requires store.attestations == x.Attested().attestations && id < 3 && Text(name)
    requires name == [x.first.reviewerId, x.second.reviewerId, x.third.adjudicatorId][id]
    ensures AttestationFor(store, id, name, x.first.datasetVersion, x.first.rubricVersion, independent).Ok?
  {
    assert store.attestations[id] == x.AttestationOf(name);
  }

  lemma FirstIsReviewed(x: Scene)
    requires x.Described() && x.Judged()
    ensures SubmitPrimary(x.Attested(), x.first, 0).0 == x.Attested().(labels := [x.P()])
  {
    ReviewerIsAttested(x, x.Attested(), 0, x.first.reviewerId, false);
    ReviewedFirst(x.Attested(), x.first, x.primary, 0);
  }

  lemma SecondIsReviewed(x: Scene)
    requires x.Described() && x.Judged()
    ensures SubmitIndependent(x.Attested().(labels := [x.P()]), x.second, 1).0 == x.Reviewed()
  {
    var store := x.Attested().(labels := [x.P()]);
    ReviewerIsAttested(x, store, 1, x.second.reviewerId, true);
    ReviewedAgain(store, x.P(), x.second, x.independent, 1);
  }

  lemma RunFirst(requests: seq<Request>, k: nat, store: Store, r: PrimaryReview, at: int)
    requires k < |requests| && RunFrom(EMPTY, requests[..k]) == store && requests[k] == ReviewFirst(r, at)
    ensures RunFrom(EMPTY, requests[..k + 1]) == SubmitPrimary(store, r, at).0
  {
    RunNext(requests, k, store);
  }

  lemma RunSecond(requests: seq<Request>, k: nat, store: Store, r: IndependentReview, at: int)
    requires k < |requests| && RunFrom(EMPTY, requests[..k]) == store && requests[k] == ReviewAgain(r, at)
    ensures RunFrom(EMPTY, requests[..k + 1]) == SubmitIndependent(store, r, at).0
  {
    RunNext(requests, k, store);
  }

  lemma PrepareFirst(x: Scene, requests: seq<Request>)
    requires x.Described() && x.Judged() && Prepares(x, requests)
    ensures RunFrom(EMPTY, requests[..4]) == x.Attested().(labels := [x.P()])
  {
    AttestAll(x, requests);
    FirstIsReviewed(x);
    RunFirst(requests, 3, x.Attested(), x.first, 0);
  }

  lemma PrepareSecond(x: Scene, requests: seq<Request>)
    requires x.Described() && x.Judged() && Prepares(x, requests)
    ensures RunFrom(EMPTY, requests[..5]) == x.Reviewed()
  {
    PrepareFirst(x, requests);
    SecondIsReviewed(x);
    RunSecond(requests, 4, x.Attested().(labels := [x.P()]), x.second, 1);
  }

  lemma Prepared(x: Scene, requests: seq<Request>)
    requires x.Described() && x.Judged() && Prepares(x, requests)
    ensures RunFrom(EMPTY, requests) == x.Compared()
  {
    PrepareSecond(x, requests);
    RunNext(requests, 5, x.Reviewed());
    ComparedPair(x.Reviewed(), x.P(), x.Q());
    assert requests[..6] == requests;
  }

  lemma ComparedMaterial(x: Scene)
    ensures MaterialOf(x.Compared(), 0, 1) == MaterialOnly(AllDisagreements(x.P(), x.Q(), 0))
    ensures x.Disputed() ==> |MaterialOf(x.Compared(), 0, 1)| > 1
  {
    OwnDisagreements(x.P(), x.Q());
    if x.Disputed() {
      var a, b :| a != b && MaterialDifference(x.P(), x.Q(), a) && MaterialDifference(x.P(), x.Q(), b);
      TwoAreMaterial(x.P(), x.Q(), a, b);
    }
  }

  lemma ThirdFiles(x: Scene, r: AdjudicationRequest)
    requires x.Described() && x.Judged() && r == x.third.(rationales := r.rationales)
    requires MaterialOf(x.Compared(), 0, 1) != [] && r.rationales.Keys == Ids(MaterialOf(x.Compared(), 0, 1))
    ensures Files(x.Compared(), r, 2)
  {
    ReviewerIsAttested(x, x.Compared(), 2, x.third.adjudicatorId, false);
    SettlementFiles(x.Compared(), x.P(), x.Q(), r, x.adjudicated, 2);
  }

  lemma AfterSettling(store: Store, r: AdjudicationRequest, at: int)
    ensures After(store, Settle(r, at)) == Adjudicate(store, r, at).0
  {
  }

  // From here on the pair is stuck for good.
  ghost predicate EndsStuck(store: Store, settle: AdjudicationRequest, later: seq<Request>) {
    Files(store, settle, 2) && Stuck(RunFrom(After(store, Settle(settle, 2)), later), 0, 1)
  }

  lemma SettledPairSticks(store: Store, p: Label, q: Label, half: AdjudicationRequest, later: seq<Request>)
    requires Sound(store) && Files(store, half, 2) && half.independentId == 1
    requires LinkedPair(store, 1) == Ok((p, q)) && p.id == 0 && q.id == 1
    requires |MaterialOf(store, 0, 1)| > 1 && half.rationales == OneAnswer(MaterialOf(store, 0, 1))
    ensures EndsStuck(store, half, later)
  {
    OneAnswerSticks(store, half, 2, 0, 1);
    AdjudicateIsSound(store, half, 2);
    AfterSettling(store, half, 2);
    StuckThroughout(Adjudicate(store, half, 2).0, later, 0, 1);
  }

  lemma ComparedIsLinked(x: Scene)
    ensures LinkedPair(x.Compared(), 1) == Ok((x.P(), x.Q())) && x.P().id == 0 && x.Q().id == 1
  {
  }

  // In every such scene: with one answer and blank rationales otherwise, the
  // adjudication leaves the pair stuck, whatever is requested afterwards.
  lemma ScenesGetStuck(x: Scene, requests: seq<Request>, later: seq<Request>)
    requires x.Described() && x.Judged() && x.Disputed() && Prepares(x, requests)
    ensures RunFrom(EMPTY, requests) == x.Compared() && |MaterialOf(x.Compared(), 0, 1)| > 1
    ensures EndsStuck(RunFrom(EMPTY, requests), x.HalfSettled(), later)
  {
    Prepared(x, requests);
    ComparedMaterial(x);
    EveryReachableStoreIsSound(requests);
    ThirdFiles(x, x.HalfSettled());
    ComparedIsLinked(x);
    SettledPairSticks(x.Compared(), x.P(), x.Q(), x.HalfSettled(), later);
  }

  // ---- Such a scene ----

  function JudgedFields(assessment: string): Fields {
    map["schema_version" := Str(LABEL_SCHEMA_VERSION), "subject_kind" := Str("failure_analysis"),
        "criteria" := TextMap(map k | k in FAILURE_CRITERIA :: assessment),
        "evidence_locators" := Arr([Str("e")]), "rationale" := Str("r")]
  }

  function Judgment(assessment: string): ReviewLabel {
    FailureLabel(map k | k in FAILURE_CRITERIA :: assessment, ["e"], "r")
  }

  lemma TextsAreAccepted()
    ensures EvidenceLocators(Arr([Str("e")])) == Ok(["e"]) && RequiredText(Str("r")) == Ok("r")
  {
    assert Stripped("e") && Stripped("r");
    assert EvidenceLocators(Arr([Str("e")])).value == ["e"];
  }

  lemma FieldsOfJudgment(assessment: string)
    ensures var labels := JudgedFields(assessment);
            && labels.Keys == FAILURE_FIELDS
            && labels["schema_version"] == Str(LABEL_SCHEMA_VERSION) && labels["subject_kind"] == Str("failure_analysis")
            && labels["criteria"] == TextMap(Judgment(assessment).criteria)
            && labels["evidence_locators"] == Arr([Str("e")]) && labels["rationale"] == Str("r")
  {
  }

  lemma JudgmentIsValid(assessment: string)
    requires assessment in ASSESSMENTS && Stripped(assessment)
    ensures Judges(FailureAnalysis, JudgedFields(assessment), Judgment(assessment))
  {
    FieldsOfJudgment(assessment);
    CriteriaAreAccepted(Judgment(assessment).criteria, FAILURE_CRITERIA);
    TextsAreAccepted();
  }

  lemma CriterionDiffers(a: string, b: string, key: string)
    requires a != b && key in FAILURE_CRITERIA
    ensures Path2("criteria", key) in DifferingPaths(Judgment(a).AsFields(), Judgment(b).AsFields())
  {
    PlainNames();
    PlainFailureCriteria();
    FailureEntries(Judgment(a));
    FailureEntries(Judgment(b));
    NestedEntry(Judgment(a).AsFields(), "criteria", key);
    NestedEntry(Judgment(b).AsFields(), "criteria", key);
  }

  function Zeros(): string {
    seq(64, _ => '0')
  }

  lemma ZerosAreADigest()
    ensures Digest(Zeros())
  {
  }

  // Three reviewers of a failure analysis who disagree on every criterion.
  function Dispute(): Scene {
    Scene(
      PrimaryReview("case", Zeros(), "d", "v", FailureAnalysis, "s", "alice", 0, JudgedFields("meets"), Zeros(), Some(Zeros())),
      IndependentReview("case", FailureAnalysis, "s", "bob", 1, JudgedFields("does_not_meet"), Zeros()),
      AdjudicationRequest(1, "carol", 2, JudgedFields("partially_meets"), map[]), "q",
      Judgment("meets"), Judgment("does_not_meet"), Judgment("partially_meets"))
  }

  lemma DisputeTexts()
    ensures Text("case") && Text("d") && Text("v") && Text("s") && Text("q")
  {
  }

  lemma DisputeNames()
    ensures Text("alice") && Text("bob") && Text("carol") && "bob" != "alice" && "carol" !in {"alice", "bob"}
  {
    assert "alice"[0] != "bob"[0] && "carol"[0] != "alice"[0] && "carol"[0] != "bob"[0];
  }

  lemma DisputeIsDescribed()
    ensures Dispute().Described()
  {
    ZerosAreADigest();
    DisputeTexts();
    DisputeNames();
  }

  lemma DisputeIsJudged()
    ensures Dispute().Judged()
  {
    assert Stripped("meets");
    assert Stripped("partially_meets");
    assert Stripped("does_not_meet");
    JudgmentIsValid("meets");
    JudgmentIsValid("does_not_meet");
    JudgmentIsValid("partially_meets");
  }

  lemma DisputeIsDisputed()
    ensures Dispute().Disputed()
  {
    var (k, l) := ("likely_cause_plausible", "observations_match_evidence");
    assert k[0] != l[0] && "meets"[0] != "does_not_meet"[0];
    var (a, b) := (Path2("criteria", k), Path2("criteria", l));
    assert a[10] == k[0] && b[10] == l[0];
    CriterionDiffers("meets", "does_not_meet", k);
    CriterionDiffers("meets", "does_not_meet", l);
    var x := Dispute();
    assert MaterialDifference(x.P(), x.Q(), a) && MaterialDifference(x.P(), x.Q(), b);
  }

  ghost predicate Ready(x: Scene) {
    x.Described() && x.Judged() && x.Disputed()
  }

  lemma DisputeIsReady() returns (x: Scene)
    ensures x == Dispute() && Ready(x)
  {
    x := Dispute();
    DisputeIsDescribed();
    DisputeIsJudged();
    DisputeIsDisputed();
  }

  function Preparation(x: Scene): (requests: seq<Request>)
    ensures Prepares(x, requests)
  {
    [x.AttestBy(x.first.reviewerId), x.AttestBy(x.second.reviewerId), x.AttestBy(x.third.adjudicatorId),
     ReviewFirst(x.first, 0), ReviewAgain(x.second, 1), Compare(1)]
  }

  ghost predicate CanGetStuck(x: Scene, later: seq<Request>) {
    exists settle :: EndsStuck(RunFrom(EMPTY, Preparation(x)), settle, later)
  }

  lemma ReadySceneGetsStuck(x: Scene, later: seq<Request>)
    requires Ready(x)
    ensures CanGetStuck(x, later)
  {
    ScenesGetStuck(x, Preparation(x), later);
  }

  // From the empty store, six requests and one adjudication whose first
  // rationale is "x" and whose others are " " lead to a pair that stays stuck.
  lemma ARunGetsStuck(later: seq<Request>)
    ensures CanGetStuck(Dispute(), later)
  {
    var x := DisputeIsReady();
    ReadySceneGetsStuck(x, later);
  }

  // ---- When the first rationale is already blank ----

  // The label is filed, nothing else is; so a repetition is accepted exactly
  // when it would have been in the first place and judges differently.
  lemma RetryIsFiledExactly(store: Store, r: AdjudicationRequest, now: int, again: AdjudicationRequest, later: int)
    requires Sound(store) && Files(store, r, now) && again.independentId == r.independentId
    requires var (p, q) := LinkedPair(store, r.independentId).value;
             Answered(MaterialOf(store, p.id, q.id), r.rationales) == 0
    ensures var (p, q) := LinkedPair(store, r.independentId).value;
            Files(Adjudicate(store, r, now).0, again, later)
            <==> && AdjudicationProceeds(store, again) && DraftError(AdjudicationDraft(p, q, again)).None?
                 && Validate(p.subjectKind, again.labels) != Validate(p.subjectKind, r.labels)
  {
    var (p, q) := LinkedPair(store, r.independentId).value;
    var after := Adjudicate(store, r, now).0;
    FiledLabelIsLatest(store, r, now);
    UnansweredAddsNothing(store, r, now);
    SameChecks(store, after, again);
    NextRevision(after, AdjudicationDraft(p, q, r), AdjudicationDraft(p, q, again), later);
  }

  lemma UnansweredAddsNothing(store: Store, r: AdjudicationRequest, now: int)
    requires Sound(store) && Files(store, r, now)
    requires var (p, q) := LinkedPair(store, r.independentId).value;
             Answered(MaterialOf(store, p.id, q.id), r.rationales) == 0
    ensures var after := Adjudicate(store, r, now).0;
            && after.attestations == store.attestations && after.disagreements == store.disagreements
            && after.adjudications == store.adjudications
  {
    var (p, q) := LinkedPair(store, r.independentId).value;
    var material := MaterialOf(store, p.id, q.id);
    FiledAdjudication(store, r, now);
    AdjudicateEffect(store, r, now);
    NothingRecorded(CreateLabel(store, AdjudicationDraft(p, q, r), now).0, material,
                    CreateLabel(store, AdjudicationDraft(p, q, r), now).1.value, r.adjudicatorId, r.rationales);
  }

  lemma NothingRecorded(store: Store, material: seq<Disagreement>, resolved: Label, adjudicatorId: string,
                        rationales: map<nat, string>)
    requires Ids(material) <= rationales.Keys && Answered(material, rationales) == 0
    ensures RecordAdjudications(store, material, resolved, adjudicatorId, rationales).0 == store
  {
  }

  lemma SameChecks(store: Store, after: Store, r: AdjudicationRequest)
    requires after.attestations == store.attestations && after.disagreements == store.disagreements
    requires after.adjudications == store.adjudications
    requires LinkedPair(after, r.independentId) == LinkedPair(store, r.independentId)
    ensures AdjudicationProceeds(after, r) <==> AdjudicationProceeds(store, r)
  {
  }

  // A further revision is filed exactly when it is well-formed and changes the
  // content of the latest one.
  lemma NextRevision(store: Store, d: Draft, next: Draft, now: int)
    requires next.caseId == d.caseId && next.subjectKind == d.subjectKind && next.subjectId == d.subjectId
    requires next.role == d.role
    requires var latest := LatestLabel(store.labels, Strip(d.caseId), d.subjectKind, Strip(d.subjectId), d.role);
             latest.Some? && Validate(d.subjectKind, d.labels) == Ok(latest.value.content)
    ensures CreateLabel(store, next, now).1.Ok?
            <==> DraftError(next).None? && Validate(d.subjectKind, next.labels) != Validate(d.subjectKind, d.labels)
  {
    if DraftError(next).None? { AcceptedIsValid(next); }
  }

  lemma AcceptedIsValid(d: Draft)
    requires DraftError(d).None?
    ensures Validate(d.subjectKind, d.labels).Ok?
  {
    var validated := Validate(d.subjectKind, d.labels);
    assert validated.Err? ==> DraftError(d).Some?;
  }
}
