// What each operation of the review service puts on record, field by field.
module RecordedEvidence {
  import opened Basics
  import opened JsonTree
  import opened JsonPointer
  import opened ReviewLabels
  import opened ReviewStore
  import opened ReviewInvariant

  // ---- Disagreements ----

  // The value that a label holds at a path: that of the leaf written so, or
  // nothing.
  ghost predicate HoldsAt(l: Label, path: string, value: Option<Json>) {
    var content := Obj(l.content.AsFields());
    match value
    case Some(v) => exists ts :: ts in LeafPaths(content) && Render(ts) == path && At(content, ts) == Some(v)
    case None => forall ts :: ts in LeafPaths(content) ==> Render(ts) != path
  }

  ghost function EntryAt(l: Label, path: string): Option<Json> {
    if path in FlatOf(l) then Some(FlatOf(l)[path]) else None
  }

  lemma HoldsEntry(l: Label, path: string)
    ensures HoldsAt(l, path, EntryAt(l, path))
  {
    var content := Obj(l.content.AsFields());
    if path in FlatOf(l) {
      var ts := LeafAt(content, path);
      FlattenIsLossless(content, path, ts);
    } else {
      forall ts | ts in LeafPaths(content) ensures Render(ts) != path {
        FlattenIsLossless(content, Render(ts), ts);
      }
    }
  }

  // A label holds at most one value at a path.
  lemma HeldIsUnique(l: Label, path: string, v: Option<Json>, w: Option<Json>)
    requires HoldsAt(l, path, v) && HoldsAt(l, path, w)
    ensures v == w
  {
    var content := Obj(l.content.AsFields());
    if v.Some? {
      var ts :| ts in LeafPaths(content) && Render(ts) == path && At(content, ts) == v;
      FlattenIsLossless(content, path, ts);
    }
    if w.Some? {
      var ts :| ts in LeafPaths(content) && Render(ts) == path && At(content, ts) == w;
      FlattenIsLossless(content, path, ts);
    }
  }

  predicate Unequal(v: Option<Json>, w: Option<Json>) {
    (v.Some? || w.Some?) && !(v.Some? && w.Some? && PyEq(v.value, w.value))
  }

  // Python's comparison of what two labels hold; nothing equals nothing else.
  ghost predicate DifferAt(p: Label, q: Label, path: string) {
    exists v, w :: HoldsAt(p, path, v) && HoldsAt(q, path, w) && Unequal(v, w)
  }

  lemma DifferingEntry(p: Label, q: Label, path: string)
    ensures path in DifferingPathsOf(p, q) <==> Unequal(EntryAt(p, path), EntryAt(q, path))
  {
  }

  lemma DifferingPathsDiffer(p: Label, q: Label, path: string)
    ensures path in DifferingPathsOf(p, q) <==> DifferAt(p, q, path)
  {
    DifferingEntry(p, q, path);
    EntriesDiffer(p, q, path, EntryAt(p, path), EntryAt(q, path));
  }

  lemma EntriesDiffer(p: Label, q: Label, path: string, v: Option<Json>, w: Option<Json>)
    requires v == EntryAt(p, path) && w == EntryAt(q, path)
    ensures DifferAt(p, q, path) <==> Unequal(v, w)
  {
    HoldsEntry(p, path);
    HoldsEntry(q, path);
    if DifferAt(p, q, path) {
      var x, y :| HoldsAt(p, path, x) && HoldsAt(q, path, y) && Unequal(x, y);
      HeldIsUnique(p, path, x, v);
      HeldIsUnique(q, path, y, w);
    }
  }

  // The records of a comparison, in the order of their paths.
  ghost predicate Records(p: Label, q: Label, ds: seq<Disagreement>, next: nat) {
    && (forall i :: 0 <= i < |ds| ==> RecordsAt(p, q, ds[i], next + i))
    && (forall i, j :: 0 <= i < j < |ds| ==> ds[i].fieldPath != ds[j].fieldPath && TextLe(ds[i].fieldPath, ds[j].fieldPath))
    && (forall path :: DifferAt(p, q, path) ==> exists i :: 0 <= i < |ds| && ds[i].fieldPath == path)
  }

  // One of them: of the pair, at a path where the labels differ, with the value
  // that each of them holds there.
  ghost predicate RecordsAt(p: Label, q: Label, d: Disagreement, id: nat) {
    && d.id == id && d.primaryLabelId == p.id && d.independentLabelId == q.id
    && DifferAt(p, q, d.fieldPath)
    && HoldsAt(p, d.fieldPath, d.primaryValue) && HoldsAt(q, d.fieldPath, d.independentValue)
    && (d.material <==> d.fieldPath in MaterialPaths(p.subjectKind))
  }

  lemma NewRecord(p: Label, q: Label, paths: seq<string>, next: nat, i: nat)
    requires i < |paths| && paths == SortedTexts(DifferingPathsOf(p, q))
    ensures RecordsAt(p, q, NewDisagreements(p, q, paths, next)[i], next + i)
    ensures NewDisagreements(p, q, paths, next)[i].fieldPath == paths[i]
  {
    DifferencesAt(p, q, FlatOf(p), FlatOf(q), MaterialPaths(p.subjectKind), paths, next, i);
    assert paths[i] in DifferingPathsOf(p, q);
    DifferingPathsDiffer(p, q, paths[i]);
    HoldsEntry(p, paths[i]);
    HoldsEntry(q, paths[i]);
  }

  lemma NewRecords(p: Label, q: Label, next: nat)
    ensures Records(p, q, NewDisagreements(p, q, SortedTexts(DifferingPathsOf(p, q)), next), next)
  {
    var paths := SortedTexts(DifferingPathsOf(p, q));
    var ds := NewDisagreements(p, q, paths, next);
    forall i | 0 <= i < |ds| ensures RecordsAt(p, q, ds[i], next + i) && ds[i].fieldPath == paths[i] {
      NewRecord(p, q, paths, next, i);
    }
    forall path | DifferAt(p, q, path) ensures exists i :: 0 <= i < |ds| && ds[i].fieldPath == path {
      DifferingPathsDiffer(p, q, path);
      var i :| 0 <= i < |paths| && paths[i] == path;
      assert ds[i].fieldPath == path;
    }
  }

  lemma EmptyOrInhabited<T>(s: seq<T>)
    ensures s == [] || exists x :: x in s
  {
    if s != [] { assert s[0] in s; }
  }

  // A pair that has no record yet gets one for each path at which the stored
  // labels differ, and these are returned; nothing else changes.
  lemma ComparisonIsRecorded(store: Store, independentId: nat, p: Label, q: Label)
    requires independentId < |store.labels| && q == store.labels[independentId] && q.role == Independent
    requires q.primaryLabelId.Some? && q.primaryLabelId.value < |store.labels| && p == store.labels[q.primaryLabelId.value]
    requires forall i :: 0 <= i < |store.disagreements| ==>
               !(store.disagreements[i].primaryLabelId == p.id && store.disagreements[i].independentLabelId == q.id)
    ensures var (after, r) := RecordMaterialDisagreements(store, independentId);
            && r.Ok? && Records(p, q, r.value, |store.disagreements|)
            && after == store.(disagreements := store.disagreements + r.value)
  {
    forall d ensures d !in DisagreementsOf(store.disagreements, p.id, q.id) {
      DisagreementsOfMembers(store.disagreements, p.id, q.id, d);
    }
    EmptyOrInhabited(DisagreementsOf(store.disagreements, p.id, q.id));
    PairIsLinked(store, independentId, p, q);
    FirstComparison(store, independentId, p, q);
    NewRecords(p, q, |store.disagreements|);
  }

  lemma PairIsLinked(store: Store, id: nat, p: Label, q: Label)
    requires id < |store.labels| && q == store.labels[id] && q.role == Independent
    requires q.primaryLabelId.Some? && q.primaryLabelId.value < |store.labels| && p == store.labels[q.primaryLabelId.value]
    ensures LinkedPair(store, id) == Ok((p, q))
  {
  }

  lemma FirstComparison(store: Store, id: nat, p: Label, q: Label)
    requires LinkedPair(store, id) == Ok((p, q)) && DisagreementsOf(store.disagreements, p.id, q.id) == []
    ensures var ds := NewDisagreements(p, q, SortedTexts(DifferingPathsOf(p, q)), |store.disagreements|);
            RecordMaterialDisagreements(store, id) == (store.(disagreements := store.disagreements + ds), Ok(ds))
  {
  }

  // A pair with records keeps them: they are returned, and nothing changes.
  lemma ComparisonIsRepeated(store: Store, independentId: nat, p: Label, q: Label, k: nat)
    requires independentId < |store.labels| && q == store.labels[independentId] && q.role == Independent
    requires q.primaryLabelId.Some? && q.primaryLabelId.value < |store.labels| && p == store.labels[q.primaryLabelId.value]
    requires k < |store.disagreements| && store.disagreements[k].primaryLabelId == p.id
    requires store.disagreements[k].independentLabelId == q.id
    ensures var (after, r) := RecordMaterialDisagreements(store, independentId);
            && after == store && r.Ok?
            && forall d :: d in r.value <==>
                 d in store.disagreements && d.primaryLabelId == p.id && d.independentLabelId == q.id
  {
    forall d
      ensures d in DisagreementsOf(store.disagreements, p.id, q.id) <==>
              d in store.disagreements && d.primaryLabelId == p.id && d.independentLabelId == q.id
    {
      DisagreementsOfMembers(store.disagreements, p.id, q.id, d);
    }
    assert store.disagreements[k] in DisagreementsOf(store.disagreements, p.id, q.id);
  }

  // The comparison fails exactly for an identifier of no label, a label that is
  // not independent, or one without its primary label.
  lemma ComparisonFailsExactly(store: Store, id: nat)
    ensures var r := RecordMaterialDisagreements(store, id).1;
            r.Ok? <==> && id < |store.labels| && store.labels[id].role == Independent
                       && store.labels[id].primaryLabelId.Some? && store.labels[id].primaryLabelId.value < |store.labels|
    ensures RecordMaterialDisagreements(store, id).1.Err? ==> RecordMaterialDisagreements(store, id).0 == store
  {
  }

  // ---- Labels ----

  predicate Given(s: string) {
    Strip(s) != ""
  }

  // Sixty-four lowercase hexadecimal digits, perhaps with white space around.
  predicate DigestGiven(s: string) {
    |Strip(s)| == 64 && forall i :: 0 <= i < 64 ==> '0' <= Strip(s)[i] <= '9' || 'a' <= Strip(s)[i] <= 'f'
  }

  // The hashes that go with a role: both for a primary review, that of the
  // packet for an independent one, none for an adjudication.
  predicate HashesFit(role: Role, candidate: Option<string>, packet: Option<string>) {
    && (candidate.Some? <==> role == Primary) && (packet.Some? <==> role != Adjudicated)
    && (candidate.Some? ==> DigestGiven(candidate.value)) && (packet.Some? ==> DigestGiven(packet.value))
  }

  predicate DraftInOrder(d: Draft) {
    && Given(d.caseId) && Given(d.subjectId) && Given(d.datasetVersion) && Given(d.rubricVersion) && Given(d.reviewerId)
    && DigestGiven(d.caseSha256) && HashesFit(d.role, d.candidateSha256, d.packetSha256)
    && Validate(d.subjectKind, d.labels).Ok?
  }

  lemma DigestsGiven(s: string)
    ensures DigestGiven(s) <==> IsSha256(Strip(s))
  {
    HexExactly(Strip(s), 64);
  }

  // The checks of a draft in the order of the source, given which digests pass.
  lemma DraftChecks(d: Draft, caseOk: bool, candidateOk: bool, packetOk: bool)
    requires caseOk == IsSha256(Strip(d.caseSha256))
    requires candidateOk == (d.candidateSha256.None? || IsSha256(Strip(d.candidateSha256.value)))
    requires packetOk == (d.packetSha256.None? || IsSha256(Strip(d.packetSha256.value)))
    ensures DraftError(d).None? <==>
            && !Blank(d.caseId) && !Blank(d.subjectId) && !Blank(d.datasetVersion) && !Blank(d.rubricVersion)
            && !Blank(d.reviewerId) && caseOk && candidateOk && packetOk
            && (d.candidateSha256.Some? <==> d.role == Primary) && (d.packetSha256.Some? <==> d.role != Adjudicated)
            && Validate(d.subjectKind, d.labels).Ok?
  {
  }

  lemma DraftsInOrder(d: Draft)
    ensures DraftError(d).None? <==> DraftInOrder(d)
  {
    DigestsGiven(d.caseSha256);
    if d.candidateSha256.Some? { DigestsGiven(d.candidateSha256.value); }
    if d.packetSha256.Some? { DigestsGiven(d.packetSha256.value); }
    DraftChecks(d, DigestGiven(d.caseSha256), d.candidateSha256.None? || DigestGiven(d.candidateSha256.value),
                d.packetSha256.None? || DigestGiven(d.packetSha256.value));
  }

  // What is filed for a draft: its texts, stripped, its validated labels, and
  // the next revision of its subject and role.
  ghost predicate FiledAs(l: Label, d: Draft, id: nat, prior: Option<Label>, now: int) {
    && l.id == id && l.caseId == Strip(d.caseId) && l.caseSha256 == Strip(d.caseSha256)
    && l.datasetVersion == Strip(d.datasetVersion) && l.rubricVersion == Strip(d.rubricVersion)
    && l.subjectKind == d.subjectKind && l.subjectId == Strip(d.subjectId) && l.role == d.role
    && l.reviewerId == Strip(d.reviewerId) && l.attestationId == d.attestationId
    && Validate(d.subjectKind, d.labels) == Ok(l.content)
    && (d.candidateSha256.None? ==> l.candidateSha256 == None)
    && (d.candidateSha256.Some? ==> l.candidateSha256 == Some(Strip(d.candidateSha256.value)))
    && (d.packetSha256.None? ==> l.packetSha256 == None)
    && (d.packetSha256.Some? ==> l.packetSha256 == Some(Strip(d.packetSha256.value)))
    && l.primaryLabelId == d.primaryLabelId && l.independentLabelId == d.independentLabelId && l.createdAt == now
    && (prior.None? ==> l.revisionNumber == 1 && l.parentRevisionId == None)
    && (prior.Some? ==> l.revisionNumber == prior.value.revisionNumber + 1 && l.parentRevisionId == Some(prior.value.id))
  }

  // A label is filed if and only if its draft is in order and changes what the
  // latest revision says; it is appended, and nothing else changes.
  lemma LabelIsFiledExactly(store: Store, d: Draft, now: int)
    ensures var prior := LatestLabel(store.labels, Strip(d.caseId), d.subjectKind, Strip(d.subjectId), d.role);
            var (after, r) := CreateLabel(store, d, now);
            && (r.Ok? <==> DraftInOrder(d) && (prior.Some? ==> Validate(d.subjectKind, d.labels) != Ok(prior.value.content)))
            && (r.Ok? ==> after == store.(labels := store.labels + [r.value])
                          && FiledAs(r.value, d, |store.labels|, prior, now))
            && (r.Err? ==> after == store)
  {
    DraftsInOrder(d);
  }

  // A successful adjudication is that of a pair: it files a label for the pair
  // and then records its adjudications.
  lemma AdjudicationSteps(store: Store, r: AdjudicationRequest, now: int)
    requires Adjudicate(store, r, now).1.Ok?
    ensures LinkedPair(store, r.independentId).Ok?
    ensures var (p, q) := LinkedPair(store, r.independentId).value;
            var material := MaterialOnly(DisagreementsOf(store.disagreements, p.id, q.id));
            var (next, filed) := CreateLabel(store, AdjudicationDraft(p, q, r), now);
            && filed.Ok? && Ids(material) <= r.rationales.Keys
            && Adjudicate(store, r, now) == RecordAdjudications(next, material, filed.value, r.adjudicatorId, r.rationales)
  {
    assert LinkedPair(store, r.independentId).Ok?;
    var (p, q) := LinkedPair(store, r.independentId).value;
    StepsOfPair(store, r, now, p, q);
  }

  lemma StepsOfPair(store: Store, r: AdjudicationRequest, now: int, p: Label, q: Label)
    requires LinkedPair(store, r.independentId) == Ok((p, q)) && Adjudicate(store, r, now).1.Ok?
    ensures var material := MaterialOnly(DisagreementsOf(store.disagreements, p.id, q.id));
            var (next, filed) := CreateLabel(store, AdjudicationDraft(p, q, r), now);
            && filed.Ok? && Ids(material) <= r.rationales.Keys
            && Adjudicate(store, r, now) == RecordAdjudications(next, material, filed.value, r.adjudicatorId, r.rationales)
  {
    var attested := AttestationFor(store, r.attestationId, r.adjudicatorId, p.datasetVersion, p.rubricVersion, false);
    var material := MaterialOnly(DisagreementsOf(store.disagreements, p.id, q.id));
    assert Strip(r.adjudicatorId) !in {p.reviewerId, q.reviewerId};
    assert attested.Ok?;
    assert material != [] && r.rationales.Keys == Ids(material) && !SomeAdjudicated(store, material);
  }

  lemma {:induction false} LoopAnswers(store: Store, material: seq<Disagreement>, resolved: Label, adjudicatorId: string,
                                       rationales: map<nat, string>)
    requires Ids(material) <= rationales.Keys
    ensures var r := RecordAdjudications(store, material, resolved, adjudicatorId, rationales).1;
            r == Ok(resolved) || r == Err(BlankValue)
    decreases |material|
  {
    if material != [] {
      assert material[0].id in Ids(material);
      var rationale := Strip(rationales[material[0].id]);
      if rationale != "" {
        assert Ids(material[1..]) <= Ids(material);
        var a := Adjudication(|store.adjudications|, material[0].id, resolved.id, Strip(adjudicatorId), rationale);
        LoopAnswers(store.(adjudications := store.adjudications + [a]), material[1..], resolved, adjudicatorId, rationales);
      }
    }
  }

  lemma AdjudicationAnswersItsLabel(store: Store, r: AdjudicationRequest, now: int, p: Label, q: Label)
    requires LinkedPair(store, r.independentId) == Ok((p, q)) && Adjudicate(store, r, now).1.Ok?
    ensures CreateLabel(store, AdjudicationDraft(p, q, r), now).1 == Adjudicate(store, r, now).1
  {
    AdjudicationSteps(store, r, now);
    var (next, filed) := CreateLabel(store, AdjudicationDraft(p, q, r), now);
    LoopAnswers(next, MaterialOnly(DisagreementsOf(store.disagreements, p.id, q.id)), filed.value, r.adjudicatorId, r.rationales);
  }

  // What an adjudicated label says: it is of the case of its pair, under the
  // adjudicator's own attestation, without hashes, and linked to both reviews.
  ghost predicate AdjudicatedAs(l: Label, p: Label, q: Label, r: AdjudicationRequest) {
    && l.caseId == Strip(p.caseId) && l.caseSha256 == Strip(p.caseSha256)
    && l.datasetVersion == Strip(p.datasetVersion) && l.rubricVersion == Strip(p.rubricVersion)
    && l.subjectKind == p.subjectKind && l.subjectId == Strip(p.subjectId) && l.role == Adjudicated
    && l.reviewerId == Strip(r.adjudicatorId) && l.attestationId == r.attestationId
    && Validate(p.subjectKind, r.labels) == Ok(l.content)
    && l.candidateSha256 == None && l.packetSha256 == None
    && l.primaryLabelId == Some(p.id) && l.independentLabelId == Some(q.id)
  }

  lemma AdjudicationDraftSays(p: Label, q: Label, r: AdjudicationRequest, l: Label, id: nat, prior: Option<Label>, now: int)
    requires FiledAs(l, AdjudicationDraft(p, q, r), id, prior, now)
    ensures AdjudicatedAs(l, p, q, r)
  {
  }

  lemma AdjudicatedLabelIsFiled(store: Store, r: AdjudicationRequest, now: int, p: Label, q: Label)
    requires LinkedPair(store, r.independentId) == Ok((p, q)) && Adjudicate(store, r, now).1.Ok?
    ensures var l := Adjudicate(store, r, now).1.value;
            AdjudicatedAs(l, p, q, r) && l.id == |store.labels| && l.createdAt == now
  {
    var d := AdjudicationDraft(p, q, r);
    AdjudicationAnswersItsLabel(store, r, now, p, q);
    LabelIsFiledExactly(store, d, now);
    AdjudicationDraftSays(p, q, r, CreateLabel(store, d, now).1.value, |store.labels|,
                          LatestLabel(store.labels, Strip(d.caseId), d.subjectKind, Strip(d.subjectId), d.role), now);
  }

  // The i-th adjudication of a successful request.
  ghost predicate Adjudicates(a: Adjudication, d: Disagreement, id: nat, l: Label, adjudicatorId: string,
                              rationales: map<nat, string>) {
    && a.id == id && a.disagreementId == d.id && a.adjudicatedLabelId == l.id && a.adjudicatorId == Strip(adjudicatorId)
    && d.id in rationales && a.rationale == Strip(rationales[d.id])
  }

  // The first adjudication is appended, and the rest follows it.
  lemma LoopStep(store: Store, material: seq<Disagreement>, l: Label, adjudicatorId: string, rationales: map<nat, string>)
    returns (next: Store)
    requires material != [] && Ids(material) <= rationales.Keys
    requires RecordAdjudications(store, material, l, adjudicatorId, rationales).1.Ok?
    ensures Ids(material[1..]) <= rationales.Keys && |next.adjudications| == |store.adjudications| + 1
    ensures store.adjudications <= next.adjudications
    ensures Adjudicates(next.adjudications[|store.adjudications|], material[0], |store.adjudications|, l, adjudicatorId, rationales)
    ensures RecordAdjudications(store, material, l, adjudicatorId, rationales)
            == RecordAdjudications(next, material[1..], l, adjudicatorId, rationales)
  {
    assert material[0].id in Ids(material);
    assert Ids(material[1..]) <= Ids(material);
    var a := Adjudication(|store.adjudications|, material[0].id, l.id, Strip(adjudicatorId), Strip(rationales[material[0].id]));
    next := store.(adjudications := store.adjudications + [a]);
  }

  // One adjudication for each disagreement, after those before.
  ghost predicate AllAdjudicated(before: seq<Adjudication>, after: seq<Adjudication>, material: seq<Disagreement>, l: Label,
                                 adjudicatorId: string, rationales: map<nat, string>)
  {
    && before <= after && |after| == |before| + |material|
    && forall i :: 0 <= i < |material| ==>
         Adjudicates(after[|before| + i], material[i], |before| + i, l, adjudicatorId, rationales)
  }

  lemma FirstAndRest(before: seq<Adjudication>, next: seq<Adjudication>, after: seq<Adjudication>, material: seq<Disagreement>,
                     l: Label, adjudicatorId: string, rationales: map<nat, string>)
    requires material != [] && before <= next && |next| == |before| + 1
    requires Adjudicates(next[|before|], material[0], |before|, l, adjudicatorId, rationales)
    requires AllAdjudicated(next, after, material[1..], l, adjudicatorId, rationales)
    ensures AllAdjudicated(before, after, material, l, adjudicatorId, rationales)
  {
    forall i | 0 <= i < |material|
      ensures Adjudicates(after[|before| + i], material[i], |before| + i, l, adjudicatorId, rationales)
    {
      if i == 0 {
        assert after[|before|] == next[|before|];
      } else {
        assert material[1..][i - 1] == material[i] && |next| + (i - 1) == |before| + i;
        assert Adjudicates(after[|next| + (i - 1)], material[1..][i - 1], |next| + (i - 1), l, adjudicatorId, rationales);
      }
    }
  }

  lemma {:induction false} LoopRecords(store: Store, material: seq<Disagreement>, l: Label, adjudicatorId: string,
                                       rationales: map<nat, string>)
    requires Ids(material) <= rationales.Keys
    requires RecordAdjudications(store, material, l, adjudicatorId, rationales).1.Ok?
    ensures AllAdjudicated(store.adjudications,
                           RecordAdjudications(store, material, l, adjudicatorId, rationales).0.adjudications,
                           material, l, adjudicatorId, rationales)
    decreases |material|
  {
    if material != [] {
      var after := RecordAdjudications(store, material, l, adjudicatorId, rationales).0.adjudications;
      var next := LoopStep(store, material, l, adjudicatorId, rationales);
      LoopRecords(next, material[1..], l, adjudicatorId, rationales);
      FirstAndRest(store.adjudications, next.adjudications, after, material, l, adjudicatorId, rationales);
    }
  }

  lemma AdjudicationsOfSteps(store: Store, next: Store, material: seq<Disagreement>, l: Label, r: AdjudicationRequest,
                             result: (Store, Result<Label, ReviewError>))
    requires Ids(material) <= r.rationales.Keys && next.adjudications == store.adjudications
    requires result == RecordAdjudications(next, material, l, r.adjudicatorId, r.rationales) && result.1.Ok?
    ensures AllAdjudicated(store.adjudications, result.0.adjudications, material, result.1.value, r.adjudicatorId, r.rationales)
  {
    LoopAnswers(next, material, l, r.adjudicatorId, r.rationales);
    LoopRecords(next, material, l, r.adjudicatorId, r.rationales);
  }

  // A successful adjudication gives each of the pair's material disagreements
  // one adjudication: the new label, the adjudicator and the rationale for it.
  lemma AdjudicationsAreRecorded(store: Store, r: AdjudicationRequest, now: int, p: Label, q: Label)
    requires LinkedPair(store, r.independentId) == Ok((p, q)) && Adjudicate(store, r, now).1.Ok?
    ensures AllAdjudicated(store.adjudications, Adjudicate(store, r, now).0.adjudications,
                           MaterialOnly(DisagreementsOf(store.disagreements, p.id, q.id)),
                           Adjudicate(store, r, now).1.value, r.adjudicatorId, r.rationales)
  {
    var (next, filed) := CreateLabel(store, AdjudicationDraft(p, q, r), now);
    AdjudicationSteps(store, r, now);
    LabelsOnly(store, AdjudicationDraft(p, q, r), now);
    AdjudicationsOfSteps(store, next, MaterialOnly(DisagreementsOf(store.disagreements, p.id, q.id)), filed.value, r,
                         Adjudicate(store, r, now));
  }

  lemma LabelsOnly(store: Store, d: Draft, now: int)
    ensures CreateLabel(store, d, now).0.adjudications == store.adjudications
  {
  }

  // ---- The latest label ----

  predicate OfSubject(l: Label, caseId: string, kind: SubjectKind, subjectId: string, role: Role) {
    l.caseId == caseId && l.subjectKind == kind && l.subjectId == subjectId && l.role == role
  }

  // By revision, then time, then identifier.
  predicate NotAfter(a: Label, b: Label) {
    || a.revisionNumber < b.revisionNumber
    || (a.revisionNumber == b.revisionNumber && a.createdAt < b.createdAt)
    || (a.revisionNumber == b.revisionNumber && a.createdAt == b.createdAt && a.id <= b.id)
  }

  // The latest label is there exactly when the subject has one in that role, and
  // it is one that no other comes after.
  lemma {:induction false} LatestExactly(labels: seq<Label>, caseId: string, kind: SubjectKind, subjectId: string, role: Role)
    ensures var latest := LatestLabel(labels, caseId, kind, subjectId, role);
            && (latest.None? ==> forall l :: l in labels ==> !OfSubject(l, caseId, kind, subjectId, role))
            && (latest.Some? ==>
                  && latest.value in labels && OfSubject(latest.value, caseId, kind, subjectId, role)
                  && forall l :: l in labels && OfSubject(l, caseId, kind, subjectId, role) ==> NotAfter(l, latest.value))
  {
    if labels != [] {
      var n := |labels| - 1;
      LatestExactly(labels[..n], caseId, kind, subjectId, role);
      assert labels == labels[..n] + [labels[n]];
    }
  }

  // ---- Attestations ----

  // Who may review: the reviewer of an eligible attestation for the very
  // versions, and an independent one where that is asked for.
  lemma AttestedExactly(store: Store, id: nat, reviewerId: string, dataset: string, rubric: string, independent: bool)
    ensures var r := AttestationFor(store, id, reviewerId, dataset, rubric, independent);
            && (r.Ok? <==>
                  && id < |store.attestations| && store.attestations[id].eligible
                  && store.attestations[id].reviewerId == Strip(reviewerId)
                  && store.attestations[id].datasetVersion == dataset && store.attestations[id].rubricVersion == rubric
                  && (independent ==> store.attestations[id].independent))
            && (r.Ok? ==> r.value == store.attestations[id])
  {
  }
}
