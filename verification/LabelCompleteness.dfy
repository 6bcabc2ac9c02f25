// The offline validator of release-review evidence.  A mapping read from YAML
// is the record of the entries the validator looks at; an absent entry is
// Null, as dict.get has it.
module LabelCompleteness {
  import opened Basics
  import opened JsonTree

  // What is found where a mapping is expected.
  datatype Found<+T> = Nothing | Other | Mapping(m: T)

  datatype Listed<+T> = NotAList | List(items: seq<Found<T>>)

  datatype ReviewRecord = ReviewRecord(
    revision: Json, sha256: Json, reviewerId: Json, attestationId: Json, lockedAt: Json,
    blind: Json, outputVisible: Json, rationale: Json)

  datatype DisagreementRecord = DisagreementRecord(status: Json, materialIds: Json)

  datatype LabelRecord = LabelRecord(
    caseId: Json, split: Json, category: Json, primary: Found<ReviewRecord>, independent: Found<ReviewRecord>,
    disagreement: Found<DisagreementRecord>, adjudication: Found<ReviewRecord>, finalRevision: Json)

  datatype AttestationRecord = AttestationRecord(
    id: Json, reviewerId: Json, qualification: Json, attestedAt: Json, eligible: Json, independent: Json)

  // The candidate commit distinguishes an absent entry from a null one.
  datatype AccessEvent = AccessEvent(
    id: Json, accessor: Json, purpose: Json, accessedAt: Json, caseIds: Json, candidateSha: Option<Json>)

  datatype SelectedCase = SelectedCase(caseId: Json)

  datatype Policy = Policy(recordedAt: Json, beforeExecution: Json, replacement: Json)

  datatype Selection = Selection(
    selectionId: Json, caseDigest: Json, truthDigest: Json, policy: Found<Policy>, selectedCases: Listed<SelectedCase>)

  datatype Candidate = Candidate(commitSha: Json, frozenAt: Json)

  datatype ModeRecord = ModeRecord(
    schemaVersion: Json, mode: Json, status: Json, disclosure: Json, custodyClaimed: Json, rationale: Json)

  datatype AccessLog = AccessLog(schemaVersion: Json, events: Listed<AccessEvent>)

  datatype StatusRecord = StatusRecord(
    primaryComplete: Json, independentComplete: Json, adjudicationComplete: Json, eligible: Json,
    allReviewsComplete: Json, allResolved: Json)

  // `reviewMode` distinguishes an absent entry from a null one.
  datatype Manifest = Manifest(
    schemaVersion: Json, datasetVersion: Json, selectionId: Json, caseDigest: Json, truthDigest: Json,
    candidate: Found<Candidate>, reviewMode: Option<Found<ModeRecord>>, attestations: Listed<AttestationRecord>,
    labels: Listed<LabelRecord>, holdoutAccess: Found<AccessLog>, releaseStatus: Found<StatusRecord>)

  datatype Suite = Suite(suiteId: string, cases: map<string, Case>)

  datatype Case = Case(split: string, category: string)

  datatype Mode = Internal | Independent

  datatype Purpose = OwnerLabeling | CandidateAssessment | IndependentReview

  // How text is read: whether str.strip() leaves nothing of it, and which
  // instant it names as an ISO timestamp with a timezone, if it is one.
  datatype Reader = Reader(blank: string -> bool, instant: string -> Option<int>)

  datatype Context = Context(
    cases: map<string, Case>, selected: set<string>, attestations: map<string, AttestationRecord>,
    mode: Mode, candidateSha: string, frozenAt: int, read: Reader)

  datatype Rejection =
    | BadManifest | BadProvenance | BadCandidate | BadSelection | BadMode | BadAttestation | BadLabel | BadAccess
    | BadReview | RevisionReused | NotBlind | NotIndependent | LockedTooEarly | BadDisagreement | BadCoverage
    | BadCounts | BadStatus | MissingLabel

  const VALIDATION := "validation"
  const HOLDOUT := "holdout"

  // ---- Entries ----

  function Text(j: Json, read: Reader): Option<string> {
    if j.Str? && !read.blank(j.s) then Some(j.s) else None
  }

  function TimeOf(j: Json, read: Reader): Option<int> {
    if Text(j, read).Some? then read.instant(j.s) else None
  }

  function PurposeOf(j: Json): Option<Purpose> {
    if j == Str("owner_labeling") then Some(OwnerLabeling)
    else if j == Str("release_candidate_assessment") then Some(CandidateAssessment)
    else if j == Str("independent_review") then Some(IndependentReview)
    else None
  }

  // A list of distinct, non-blank texts.
  predicate DistinctTexts(j: Json, read: Reader) {
    j.Arr? && (forall v :: v in j.items ==> Text(v, read).Some?) && Distinct(j.items)
  }

  // ---- When a review is accepted ----

  function RevisionOf(r: ReviewRecord): string {
    if r.revision.Str? then r.revision.s else ""
  }

  predicate ReviewAccepted(r: ReviewRecord, ctx: Context, independent: bool) {
    && Text(r.revision, ctx.read).Some? && Text(r.sha256, ctx.read).Some? && Hex(r.sha256.s, 64)
    && Text(r.reviewerId, ctx.read).Some? && Text(r.attestationId, ctx.read).Some? && TimeOf(r.lockedAt, ctx.read).Some?
    && r.attestationId.s in ctx.attestations
    && ctx.attestations[r.attestationId.s].reviewerId == r.reviewerId
    && ctx.attestations[r.attestationId.s].eligible == Bool(true)
    && ctx.attestations[r.attestationId.s].independent == Bool(independent)
  }

  // A second review is blind, by somebody else, and of a frozen candidate.
  predicate SecondReviewAccepted(primary: ReviewRecord, second: ReviewRecord, split: string, ctx: Context) {
    && second.blind == Bool(true) && second.outputVisible == Bool(false)
    && ReviewAccepted(second, ctx, true) && second.reviewerId != primary.reviewerId
    && (split == HOLDOUT ==> TimeOf(second.lockedAt, ctx.read).value >= ctx.frozenAt)
  }

  predicate Undisputed(l: LabelRecord)
    requires l.primary.Mapping? && l.disagreement.Mapping?
  {
    && l.disagreement.m.materialIds == Arr([]) && l.adjudication.Nothing?
    && (l.finalRevision == l.primary.m.revision
        || (l.independent.Mapping? && l.finalRevision == l.independent.m.revision))
  }

  predicate Resolved(l: LabelRecord, ctx: Context)
    requires l.primary.Mapping? && l.disagreement.Mapping?
  {
    && l.independent.Mapping? && l.adjudication.Mapping? && l.disagreement.m.materialIds != Arr([])
    && ReviewAccepted(l.adjudication.m, ctx, true)
    && l.adjudication.m.reviewerId != l.primary.m.reviewerId
    && l.adjudication.m.reviewerId != l.independent.m.reviewerId
    && Text(l.adjudication.m.rationale, ctx.read).Some?
    && l.finalRevision == l.adjudication.m.revision
  }

  predicate DisagreementAccepted(l: LabelRecord, ctx: Context)
    requires l.primary.Mapping?
  {
    && l.disagreement.Mapping? && Text(l.disagreement.m.status, ctx.read).Some? && DistinctTexts(l.disagreement.m.materialIds, ctx.read)
    && Text(l.finalRevision, ctx.read).Some?
    && (if l.disagreement.m.status == Str("none") then Undisputed(l)
        else l.disagreement.m.status == Str("resolved") && Resolved(l, ctx))
  }

  predicate LabelAccepted(l: LabelRecord, id: string, ctx: Context)
    requires id in ctx.cases
  {
    && Text(l.split, ctx.read) == Some(ctx.cases[id].split) && Text(l.category, ctx.read) == Some(ctx.cases[id].category)
    && l.primary.Mapping? && ReviewAccepted(l.primary.m, ctx, false)
    && !l.independent.Other?
    && (ctx.mode.Internal? ==> l.independent.Nothing? && l.adjudication.Nothing?)
    && (ctx.mode.Independent? && id in ctx.selected ==> l.independent.Mapping?)
    && (l.independent.Mapping? ==> SecondReviewAccepted(l.primary.m, l.independent.m, ctx.cases[id].split, ctx))
    && DisagreementAccepted(l, ctx)
  }

  function Revisions(l: LabelRecord): seq<string> {
    (if l.primary.Mapping? then [RevisionOf(l.primary.m)] else [])
    + (if l.independent.Mapping? then [RevisionOf(l.independent.m)] else [])
    + (if l.adjudication.Mapping? then [RevisionOf(l.adjudication.m)] else [])
  }

  // The revisions of all reviews of all labels.
  function AllRevisions(labels: seq<LabelRecord>): seq<string> {
    if labels == [] then []
    else AllRevisions(labels[..|labels| - 1]) + Revisions(labels[|labels| - 1])
  }

  predicate Counted(l: LabelRecord, id: string, ctx: Context) {
    l.independent.Mapping? && id in ctx.selected
  }

  function IdOf(l: LabelRecord): string {
    if l.caseId.Str? then l.caseId.s else ""
  }

  // How many selected cases of a split have an independent review.
  function ReviewCount(labels: seq<LabelRecord>, ctx: Context, split: string): nat {
    if labels == [] then 0
    else
      var last := labels[|labels| - 1];
      ReviewCount(labels[..|labels| - 1], ctx, split)
      + if IdOf(last) in ctx.cases && ctx.cases[IdOf(last)].split == split && Counted(last, IdOf(last), ctx) then 1 else 0
  }

  // ---- Checking one label ----

  // The set of revisions seen so far, shared by every review check.
  class SeenRevisions {
    var revisions: set<string>

    constructor ()
      ensures revisions == {}
    {
      revisions := {};
    }
  }

  predicate Fresh(revisions: seq<string>, seen: set<string>) {
    Distinct(revisions) && forall r :: r in revisions ==> r !in seen
  }

  function Elements(revisions: seq<string>): set<string> {
    set r | r in revisions
  }

  // The reviews of a label are checked one by one against those seen before.
  lemma FreshOneByOne(l: LabelRecord, seen: set<string>)
    requires l.primary.Mapping?
    ensures var first := seen + {RevisionOf(l.primary.m)};
            var second := first + if l.independent.Mapping? then {RevisionOf(l.independent.m)} else {};
            && (Fresh(Revisions(l), seen) <==>
                  && RevisionOf(l.primary.m) !in seen
                  && (l.independent.Mapping? ==> RevisionOf(l.independent.m) !in first)
                  && (l.adjudication.Mapping? ==> RevisionOf(l.adjudication.m) !in second))
            && seen + Elements(Revisions(l))
               == second + if l.adjudication.Mapping? then {RevisionOf(l.adjudication.m)} else {}
  {
    var r := Revisions(l);
    assert r[0] == RevisionOf(l.primary.m);
    if l.independent.Mapping? { assert r[1] == RevisionOf(l.independent.m); }
    if l.adjudication.Mapping? { assert r[|r| - 1] == RevisionOf(l.adjudication.m); }
  }

  method ValidateReview(review: ReviewRecord, ctx: Context, independent: bool, seen: SeenRevisions)
    returns (error: Option<Rejection>)
    modifies seen
    ensures error.None? <==> ReviewAccepted(review, ctx, independent) && RevisionOf(review) !in old(seen.revisions)
    ensures error.None? ==> seen.revisions == old(seen.revisions) + {RevisionOf(review)}
    ensures error != Some(MissingLabel)
  {
    if Text(review.revision, ctx.read).None? { return Some(BadReview); }
    if review.revision.s in seen.revisions { return Some(RevisionReused); }
    seen.revisions := seen.revisions + {review.revision.s};
    if Text(review.sha256, ctx.read).None? || !Hex(review.sha256.s, 64) { return Some(BadReview); }
    if Text(review.reviewerId, ctx.read).None? || Text(review.attestationId, ctx.read).None? { return Some(BadReview); }
    if TimeOf(review.lockedAt, ctx.read).None? { return Some(BadReview); }
    if review.attestationId.s !in ctx.attestations { return Some(BadReview); }
    var attestation := ctx.attestations[review.attestationId.s];
    if attestation.reviewerId != review.reviewerId { return Some(BadReview); }
    if attestation.eligible != Bool(true) { return Some(BadReview); }
    if attestation.independent != Bool(independent) { return Some(BadReview); }
    return None;
  }

  method ValidateDisagreement(l: LabelRecord, ctx: Context, seen: SeenRevisions) returns (error: Option<Rejection>)
    requires l.primary.Mapping? && !l.independent.Other?
    modifies seen
    ensures error.None? <==>
            && DisagreementAccepted(l, ctx)
            && (l.adjudication.Mapping? ==> RevisionOf(l.adjudication.m) !in old(seen.revisions))
    ensures error.None? ==>
            seen.revisions == old(seen.revisions)
                              + (if l.adjudication.Mapping? then {RevisionOf(l.adjudication.m)} else {})
    ensures error != Some(MissingLabel)
  {
    if !l.disagreement.Mapping? { return Some(BadDisagreement); }
    var status, ids := l.disagreement.m.status, l.disagreement.m.materialIds;
    if Text(status, ctx.read).None? { return Some(BadDisagreement); }
    if !DistinctTexts(ids, ctx.read) { return Some(BadDisagreement); }
    if Text(l.finalRevision, ctx.read).None? || l.adjudication.Other? { return Some(BadDisagreement); }
    if status == Str("none") {
      if ids.items != [] || !l.adjudication.Nothing? { return Some(BadDisagreement); }
      if l.finalRevision == l.primary.m.revision { return None; }
      if l.independent.Mapping? && l.finalRevision == l.independent.m.revision { return None; }
      return Some(BadDisagreement);
    }
    if status != Str("resolved") { return Some(BadDisagreement); }
    if !l.independent.Mapping? || ids.items == [] || !l.adjudication.Mapping? { return Some(BadDisagreement); }
    error := ValidateReview(l.adjudication.m, ctx, true, seen);
    if error.Some? { return; }
    if l.adjudication.m.reviewerId in {l.primary.m.reviewerId, l.independent.m.reviewerId} { return Some(NotIndependent); }
    if Text(l.adjudication.m.rationale, ctx.read).None? { return Some(BadDisagreement); }
    if l.finalRevision != l.adjudication.m.revision { return Some(BadDisagreement); }
    return None;
  }

  method ValidateLabel(l: LabelRecord, id: string, ctx: Context, seen: SeenRevisions) returns (error: Option<Rejection>)
    requires id in ctx.cases
    modifies seen
    ensures error.None? <==> LabelAccepted(l, id, ctx) && Fresh(Revisions(l), old(seen.revisions))
    ensures error.None? ==> seen.revisions == old(seen.revisions) + Elements(Revisions(l))
    ensures error != Some(MissingLabel)
  {
    if Text(l.split, ctx.read) != Some(ctx.cases[id].split) { return Some(BadLabel); }
    if Text(l.category, ctx.read) != Some(ctx.cases[id].category) { return Some(BadLabel); }
    if !l.primary.Mapping? { return Some(BadLabel); }
    FreshOneByOne(l, seen.revisions);
    error := ValidateReview(l.primary.m, ctx, false, seen);
    if error.Some? { return; }
    if l.independent.Other? { return Some(BadLabel); }
    if ctx.mode.Internal? && (!l.independent.Nothing? || !l.adjudication.Nothing?) { return Some(NotIndependent); }
    if id in ctx.selected && l.independent.Nothing? && ctx.mode.Independent? { return Some(BadLabel); }
    if l.independent.Mapping? {
      var second := l.independent.m;
      if second.blind != Bool(true) || second.outputVisible != Bool(false) { return Some(NotBlind); }
      error := ValidateReview(second, ctx, true, seen);
      if error.Some? { return; }
      if second.reviewerId == l.primary.m.reviewerId { return Some(NotIndependent); }
      if ctx.cases[id].split == HOLDOUT && TimeOf(second.lockedAt, ctx.read).value < ctx.frozenAt {
        return Some(LockedTooEarly);
      }
    }
    error := ValidateDisagreement(l, ctx, seen);
  }

  // ---- Indexing the lists ----

  predicate Named<T>(item: Found<T>, id: T -> Json, read: Reader) {
    item.Mapping? && Text(id(item.m), read).Some?
  }

  // Mappings with non-blank identifiers that do not repeat.
  predicate Indexed<T>(items: seq<Found<T>>, id: T -> Json, read: Reader) {
    && (forall i :: 0 <= i < |items| ==> Named(items[i], id, read))
    && (forall i, j :: 0 <= i < j < |items| ==> Named(items[i], id, read) && Named(items[j], id, read) ==>
                                               id(items[i].m) != id(items[j].m))
  }

  // The dictionary from identifiers to records.
  function Table<T>(items: seq<Found<T>>, id: T -> Json, read: Reader): map<string, T> {
    if items == [] then map[]
    else
      var last := items[|items| - 1];
      var rest := Table(items[..|items| - 1], id, read);
      if Named(last, id, read) then rest[id(last.m).s := last.m] else rest
  }

  // Every key of the table comes from an item, and every item is found.
  lemma {:induction false} TableKey<T>(items: seq<Found<T>>, id: T -> Json, read: Reader, k: string) returns (i: nat)
    requires k in Table(items, id, read)
    ensures i < |items| && Named(items[i], id, read) && id(items[i].m) == Str(k) && Table(items, id, read)[k] == items[i].m
  {
    var n := |items| - 1;
    if Named(items[n], id, read) && id(items[n].m) == Str(k) {
      i := n;
    } else {
      i := TableKey(items[..n], id, read, k);
    }
  }

  lemma {:induction false} TableItem<T>(items: seq<Found<T>>, id: T -> Json, read: Reader, i: nat)
    requires i < |items| && Indexed(items, id, read)
    ensures Named(items[i], id, read) && id(items[i].m).s in Table(items, id, read)
    ensures Table(items, id, read)[id(items[i].m).s] == items[i].m
  {
    var n := |items| - 1;
    if i < n {
      IndexedPrefix(items, id, read, n);
      TableItem(items[..n], id, read, i);
    }
  }

  lemma IndexedPrefix<T>(items: seq<Found<T>>, id: T -> Json, read: Reader, n: nat)
    requires n <= |items| && Indexed(items, id, read)
    ensures Indexed(items[..n], id, read)
  {
  }

  lemma IndexedNext<T>(items: seq<Found<T>>, id: T -> Json, read: Reader, n: nat)
    requires n < |items| && Indexed(items[..n], id, read)
    ensures Indexed(items[..n + 1], id, read)
            <==> Named(items[n], id, read) && id(items[n].m).s !in Table(items[..n], id, read)
  {
    if Named(items[n], id, read) && id(items[n].m).s in Table(items[..n], id, read) {
      var i := TableKey(items[..n], id, read, id(items[n].m).s);
      assert items[..n + 1][i] == items[i] && items[..n + 1][n] == items[n];
    } else if Named(items[n], id, read) {
      forall i | 0 <= i < n ensures id(items[i].m) != id(items[n].m) && Named(items[i], id, read) {
        TableItem(items[..n], id, read, i);
      }
    } else {
      assert items[..n + 1][n] == items[n];
    }
  }

  // The loop by which the source indexes attestations, labels and selected
  // cases: fails closed on a malformed, invalid or repeated record.
  method Index<T>(items: seq<Found<T>>, id: T -> Json, valid: T -> bool, read: Reader)
    returns (r: Option<map<string, T>>)
    ensures r.Some? <==> Indexed(items, id, read) && forall i :: 0 <= i < |items| ==> items[i].Mapping? && valid(items[i].m)
    ensures r.Some? ==> r.value == Table(items, id, read)
  {
    var table: map<string, T> := map[];
    var i := 0;
    while i < |items|
      invariant 0 <= i <= |items|
      invariant Indexed(items[..i], id, read)
      invariant forall k :: 0 <= k < i ==> items[k].Mapping? && valid(items[k].m)
      invariant table == Table(items[..i], id, read)
    {
      assert items[..i + 1][..i] == items[..i];
      IndexedNext(items, id, read, i);
      if !items[i].Mapping? || Text(id(items[i].m), read).None? || id(items[i].m).s in table || !valid(items[i].m) {
        if Indexed(items, id, read) { IndexedPrefix(items, id, read, i + 1); }
        return None;
      }
      table := table[id(items[i].m).s := items[i].m];
      i := i + 1;
    }
    assert items[..i] == items;
    return Some(table);
  }

  // ---- Holdout access ----

  // One case of an access event: a known holdout case, accessed for an
  // assessment or review by the person who made that review.
  predicate CaseAccessAccepted(e: AccessEvent, c: Json, labels: map<string, LabelRecord>, ctx: Context) {
    && c.Str? && c.s in ctx.cases && ctx.cases[c.s].split == HOLDOUT
    && (PurposeOf(e.purpose) == Some(CandidateAssessment) ==>
          c.s in labels && labels[c.s].primary.Mapping? && labels[c.s].primary.m.reviewerId == e.accessor)
    && (PurposeOf(e.purpose) == Some(IndependentReview) ==>
          c.s in labels && labels[c.s].independent.Mapping? && labels[c.s].independent.m.reviewerId == e.accessor)
  }

  predicate EventAccepted(e: AccessEvent, labels: map<string, LabelRecord>, ctx: Context) {
    && Text(e.accessor, ctx.read).Some? && Text(e.purpose, ctx.read).Some? && PurposeOf(e.purpose).Some?
    && (ctx.mode.Internal? ==> PurposeOf(e.purpose) != Some(IndependentReview))
    && TimeOf(e.accessedAt, ctx.read).Some?
    && e.caseIds.Arr? && e.caseIds.items != [] && Distinct(e.caseIds.items)
    && (forall i :: 0 <= i < |e.caseIds.items| ==> CaseAccessAccepted(e, e.caseIds.items[i], labels, ctx))
    && (if PurposeOf(e.purpose) == Some(OwnerLabeling) then e.candidateSha == Some(Null)
        else e.candidateSha == Some(Str(ctx.candidateSha)) && TimeOf(e.accessedAt, ctx.read).value >= ctx.frozenAt)
  }

  function AccessedIn(e: AccessEvent): set<string> {
    if e.caseIds.Arr? then set c | c in e.caseIds.items && c.Str? :: c.s else {}
  }

  // The cases accessed for a purpose in any of the events.
  function AccessedFor(events: seq<Found<AccessEvent>>, purpose: Purpose): set<string> {
    if events == [] then {}
    else
      var last := events[|events| - 1];
      AccessedFor(events[..|events| - 1], purpose)
      + if last.Mapping? && PurposeOf(last.m.purpose) == Some(purpose) then AccessedIn(last.m) else {}
  }

  function SelectedHoldouts(ctx: Context): set<string> {
    set id | id in ctx.selected && id in ctx.cases && ctx.cases[id].split == HOLDOUT
  }

  predicate EventsAccepted(events: seq<Found<AccessEvent>>, labels: map<string, LabelRecord>, ctx: Context) {
    && Indexed(events, EventId, ctx.read)
    && forall i :: 0 <= i < |events| ==> events[i].Mapping? && EventAccepted(events[i].m, labels, ctx)
  }

  lemma EventsNext(events: seq<Found<AccessEvent>>, i: nat, labels: map<string, LabelRecord>, ctx: Context)
    requires i < |events| && EventsAccepted(events[..i], labels, ctx)
    ensures EventsAccepted(events[..i + 1], labels, ctx) <==>
            && Named(events[i], EventId, ctx.read)
            && events[i].m.id.s !in Table(events[..i], EventId, ctx.read)
            && EventAccepted(events[i].m, labels, ctx)
    ensures Table(events[..i + 1], EventId, ctx.read)
            == if Named(events[i], EventId, ctx.read)
               then Table(events[..i], EventId, ctx.read)[events[i].m.id.s := events[i].m]
               else Table(events[..i], EventId, ctx.read)
  {
    IndexedNext(events, EventId, ctx.read, i);
    assert events[..i + 1][..i] == events[..i] && events[..i + 1][i] == events[i];
    assert events[..i + 1] == events[..i] + [events[i]];
  }

  lemma EventsPrefix(events: seq<Found<AccessEvent>>, i: nat, labels: map<string, LabelRecord>, ctx: Context)
    requires i <= |events| && EventsAccepted(events, labels, ctx)
    ensures EventsAccepted(events[..i], labels, ctx)
  {
  }

  predicate HoldoutAccepted(log: AccessLog, labels: map<string, LabelRecord>, ctx: Context) {
    && log.schemaVersion == Str("holdout-access-log/v1")
    && log.events.List? && log.events.items != [] && EventsAccepted(log.events.items, labels, ctx)
    && SelectedHoldouts(ctx) <= AccessedFor(log.events.items, CandidateAssessment)
    && (ctx.mode.Independent? ==> SelectedHoldouts(ctx) <= AccessedFor(log.events.items, IndependentReview))
  }

  function EventId(e: AccessEvent): Json { e.id }
  function AttestationId(a: AttestationRecord): Json { a.id }
  function LabelId(l: LabelRecord): Json { l.caseId }
  function SelectedId(c: SelectedCase): Json { c.caseId }

  predicate HoldoutCase(c: Json, ctx: Context) {
    c.Str? && c.s in ctx.cases && ctx.cases[c.s].split == HOLDOUT
  }

  predicate NeedsLabel(e: AccessEvent) {
    PurposeOf(e.purpose) == Some(CandidateAssessment) || PurposeOf(e.purpose) == Some(IndependentReview)
  }

  // The source looks up the label of the case without asking whether there is
  // one, and fails with a KeyError if not.
  predicate LooksUpMissing(e: AccessEvent, c: Json, labels: map<string, LabelRecord>, ctx: Context) {
    HoldoutCase(c, ctx) && NeedsLabel(e) && c.s !in labels
  }

  method ValidateCaseAccess(e: AccessEvent, c: Json, labels: map<string, LabelRecord>, ctx: Context)
    returns (error: Option<Rejection>)
    ensures error.None? <==> CaseAccessAccepted(e, c, labels, ctx)
    ensures error == Some(MissingLabel) <==> LooksUpMissing(e, c, labels, ctx)
  {
    if !c.Str? || c.s !in ctx.cases || ctx.cases[c.s].split != HOLDOUT { return Some(BadAccess); }
    var purpose := PurposeOf(e.purpose);
    if purpose == Some(CandidateAssessment) {
      if c.s !in labels { return Some(MissingLabel); }
      var primary := labels[c.s].primary;
      if !primary.Mapping? || primary.m.reviewerId != e.accessor { return Some(BadAccess); }
    }
    if purpose == Some(IndependentReview) {
      if c.s !in labels { return Some(MissingLabel); }
      var independent := labels[c.s].independent;
      if !independent.Mapping? || independent.m.reviewerId != e.accessor { return Some(BadAccess); }
    }
    return None;
  }

  // What is checked of an event before its cases.
  predicate EventOpens(e: AccessEvent, ctx: Context) {
    && Text(e.accessor, ctx.read).Some? && Text(e.purpose, ctx.read).Some? && PurposeOf(e.purpose).Some?
    && (ctx.mode.Internal? ==> PurposeOf(e.purpose) != Some(IndependentReview))
    && TimeOf(e.accessedAt, ctx.read).Some?
    && e.caseIds.Arr? && e.caseIds.items != [] && Distinct(e.caseIds.items)
  }

  predicate CrashesAt(e: AccessEvent, i: nat, labels: map<string, LabelRecord>, ctx: Context)
    requires e.caseIds.Arr? && i < |e.caseIds.items|
  {
    && LooksUpMissing(e, e.caseIds.items[i], labels, ctx)
    && forall k :: 0 <= k < i ==> CaseAccessAccepted(e, e.caseIds.items[k], labels, ctx)
  }

  // Everything before the first missing label is in order.
  predicate EventCrashes(e: AccessEvent, labels: map<string, LabelRecord>, ctx: Context) {
    EventOpens(e, ctx) && exists i :: 0 <= i < |e.caseIds.items| && CrashesAt(e, i, labels, ctx)
  }

  // Collects the cases of an event, or rejects it.
  method ValidateEvent(e: AccessEvent, labels: map<string, LabelRecord>, ctx: Context) returns (error: Option<Rejection>)
    ensures error.None? <==> EventAccepted(e, labels, ctx)
    ensures error == Some(MissingLabel) <==> EventCrashes(e, labels, ctx)
  {
    if Text(e.accessor, ctx.read).None? || Text(e.purpose, ctx.read).None? { return Some(BadAccess); }
    var purpose := PurposeOf(e.purpose);
    if purpose.None? || (purpose == Some(IndependentReview) && ctx.mode.Internal?) { return Some(BadAccess); }
    var accessedAt := TimeOf(e.accessedAt, ctx.read);
    if accessedAt.None? || !e.caseIds.Arr? { return Some(BadAccess); }
    var ids := e.caseIds.items;
    if ids == [] || !Distinct(ids) { return Some(BadAccess); }
    var i := 0;
    while i < |ids|
      invariant 0 <= i <= |ids|
      invariant forall k :: 0 <= k < i ==> CaseAccessAccepted(e, ids[k], labels, ctx)
    {
      error := ValidateCaseAccess(e, ids[i], labels, ctx);
      if error.Some? {
        if error == Some(MissingLabel) { assert CrashesAt(e, i, labels, ctx); }
        return;
      }
      i := i + 1;
    }
    if purpose == Some(OwnerLabeling) {
      if e.candidateSha != Some(Null) { return Some(BadAccess); }
    } else if e.candidateSha != Some(Str(ctx.candidateSha)) || accessedAt.value < ctx.frozenAt {
      return Some(BadAccess);
    }
    return None;
  }

  // The events before are in order, and this one looks up a missing label.
  ghost predicate LogCrashesAt(events: seq<Found<AccessEvent>>, i: nat, labels: map<string, LabelRecord>, ctx: Context)
    requires i < |events|
  {
    && EventsAccepted(events[..i], labels, ctx) && Named(events[i], EventId, ctx.read)
    && events[i].m.id.s !in Table(events[..i], EventId, ctx.read) && EventCrashes(events[i].m, labels, ctx)
  }

  ghost predicate LogCrashes(events: seq<Found<AccessEvent>>, labels: map<string, LabelRecord>, ctx: Context) {
    exists i :: 0 <= i < |events| && LogCrashesAt(events, i, labels, ctx)
  }

  lemma CrashIsNotAccepted(e: AccessEvent, labels: map<string, LabelRecord>, ctx: Context)
    ensures EventCrashes(e, labels, ctx) ==> !EventAccepted(e, labels, ctx)
  {
    if EventCrashes(e, labels, ctx) {
      var i :| 0 <= i < |e.caseIds.items| && CrashesAt(e, i, labels, ctx);
      assert !CaseAccessAccepted(e, e.caseIds.items[i], labels, ctx);
    }
  }

  lemma NoEarlierCrash(events: seq<Found<AccessEvent>>, i: nat, j: nat, labels: map<string, LabelRecord>, ctx: Context)
    requires j < i <= |events| && EventsAccepted(events[..i], labels, ctx)
    ensures !LogCrashesAt(events, j, labels, ctx)
  {
    assert events[..i][j] == events[j];
    CrashIsNotAccepted(events[j].m, labels, ctx);
  }

  lemma PrefixDecides(events: seq<Found<AccessEvent>>, i: nat, labels: map<string, LabelRecord>, ctx: Context)
    requires i <= |events|
    ensures EventsAccepted(events, labels, ctx) ==> EventsAccepted(events[..i], labels, ctx)
  {
  }

  lemma NoLaterCrash(events: seq<Found<AccessEvent>>, i: nat, j: nat, labels: map<string, LabelRecord>, ctx: Context)
    requires i < j < |events| && !EventsAccepted(events[..i + 1], labels, ctx)
    ensures !LogCrashesAt(events, j, labels, ctx)
  {
    assert events[..j][..i + 1] == events[..i + 1];
    PrefixDecides(events[..j], i + 1, labels, ctx);
  }

  // The first event that is not in order decides.
  lemma FirstFaultDecides(events: seq<Found<AccessEvent>>, i: nat, labels: map<string, LabelRecord>, ctx: Context)
    requires i < |events| && EventsAccepted(events[..i], labels, ctx) && !EventsAccepted(events[..i + 1], labels, ctx)
    ensures !EventsAccepted(events, labels, ctx)
    ensures LogCrashes(events, labels, ctx) <==> LogCrashesAt(events, i, labels, ctx)
  {
    forall j | 0 <= j < |events| && j != i ensures !LogCrashesAt(events, j, labels, ctx) {
      if j < i {
        NoEarlierCrash(events, i, j, labels, ctx);
      } else {
        NoLaterCrash(events, i, j, labels, ctx);
      }
    }
  }

  lemma AcceptedDoesNotCrash(events: seq<Found<AccessEvent>>, labels: map<string, LabelRecord>, ctx: Context)
    requires EventsAccepted(events, labels, ctx)
    ensures !LogCrashes(events, labels, ctx)
  {
    forall j | 0 <= j < |events| ensures !LogCrashesAt(events, j, labels, ctx) {
      CrashIsNotAccepted(events[j].m, labels, ctx);
    }
  }

  lemma AccessNext(events: seq<Found<AccessEvent>>, i: nat, purpose: Purpose)
    requires i < |events| && events[i].Mapping?
    ensures AccessedFor(events[..i + 1], purpose)
            == AccessedFor(events[..i], purpose)
               + if PurposeOf(events[i].m.purpose) == Some(purpose) then AccessedIn(events[i].m) else {}
  {
    assert events[..i + 1][..i] == events[..i];
  }

  // The cases assessed and the cases independently reviewed, if every event
  // is in order.
  method CollectAccess(events: seq<Found<AccessEvent>>, labels: map<string, LabelRecord>, ctx: Context)
    returns (r: Result<(set<string>, set<string>), Rejection>)
    ensures r.Ok? <==> EventsAccepted(events, labels, ctx)
    ensures r.Ok? ==> r.value == (AccessedFor(events, CandidateAssessment), AccessedFor(events, IndependentReview))
    ensures r == Err(MissingLabel) <==> LogCrashes(events, labels, ctx)
  {
    var eventIds: map<string, AccessEvent> := map[];
    var assessed, reviewed := {}, {};
    var i := 0;
    while i < |events|
      invariant 0 <= i <= |events|
      invariant EventsAccepted(events[..i], labels, ctx) && eventIds == Table(events[..i], EventId, ctx.read)
      invariant assessed == AccessedFor(events[..i], CandidateAssessment)
      invariant reviewed == AccessedFor(events[..i], IndependentReview)
    {
      EventsNext(events, i, labels, ctx);
      if !events[i].Mapping? || Text(events[i].m.id, ctx.read).None? || events[i].m.id.s in eventIds {
        FirstFaultDecides(events, i, labels, ctx);
        return Err(BadAccess);
      }
      var e := events[i].m;
      var error := ValidateEvent(e, labels, ctx);
      if error.Some? {
        FirstFaultDecides(events, i, labels, ctx);
        return Err(error.value);
      }
      eventIds := eventIds[e.id.s := e];
      AccessNext(events, i, CandidateAssessment);
      AccessNext(events, i, IndependentReview);
      if PurposeOf(e.purpose) == Some(CandidateAssessment) { assessed := assessed + AccessedIn(e); }
      if PurposeOf(e.purpose) == Some(IndependentReview) { reviewed := reviewed + AccessedIn(e); }
      i := i + 1;
    }
    assert events[..i] == events;
    AcceptedDoesNotCrash(events, labels, ctx);
    return Ok((assessed, reviewed));
  }

  ghost predicate AccessCrashes(log: AccessLog, labels: map<string, LabelRecord>, ctx: Context) {
    log.schemaVersion == Str("holdout-access-log/v1") && log.events.List? && LogCrashes(log.events.items, labels, ctx)
  }

  method ValidateHoldoutAccess(log: AccessLog, labels: map<string, LabelRecord>, ctx: Context) returns (r: Result<nat, Rejection>)
    ensures r.Ok? <==> HoldoutAccepted(log, labels, ctx)
    ensures r.Ok? ==> r.value == |log.events.items|
    ensures r == Err(MissingLabel) <==> AccessCrashes(log, labels, ctx)
  {
    if log.schemaVersion != Str("holdout-access-log/v1") { return Err(BadAccess); }
    if !log.events.List? || log.events.items == [] { return Err(BadAccess); }
    var access := CollectAccess(log.events.items, labels, ctx);
    if access.Err? { return Err(access.error); }
    if !(SelectedHoldouts(ctx) <= access.value.0) { return Err(BadAccess); }
    if ctx.mode.Independent? && !(SelectedHoldouts(ctx) <= access.value.1) { return Err(BadAccess); }
    return Ok(|log.events.items|);
  }

  // ---- All labels ----

  function CountIn(counts: map<string, nat>, split: string): nat {
    if split in counts then counts[split] else 0
  }

  // The labels as validated in order, each against the revisions before it.
  ghost predicate LabelsAccepted(labels: seq<LabelRecord>, ctx: Context) {
    && (forall i :: 0 <= i < |labels| ==> IdOf(labels[i]) in ctx.cases && LabelAccepted(labels[i], IdOf(labels[i]), ctx))
    && Distinct(AllRevisions(labels))
  }

  lemma DistinctConcat(a: seq<string>, b: seq<string>)
    ensures Distinct(a + b) <==> Distinct(a) && Fresh(b, Elements(a))
  {
    var ab := a + b;
    if Distinct(ab) {
      forall i, j | 0 <= i < j < |a| ensures a[i] != a[j] { assert ab[i] != ab[j]; }
      forall i, j | 0 <= i < j < |b| ensures b[i] != b[j] { assert ab[|a| + i] != ab[|a| + j]; }
      forall i, j | 0 <= i < |a| && 0 <= j < |b| ensures a[i] != b[j] { assert ab[i] != ab[|a| + j]; }
    }
    if Distinct(a) && Fresh(b, Elements(a)) {
      forall i, j | 0 <= i < j < |ab| ensures ab[i] != ab[j] {
        if i < |a| <= j {
          assert ab[i] in Elements(a) && ab[j] in b;
        } else if |a| <= i {
          assert b[i - |a|] != b[j - |a|];
        }
      }
    }
  }

  lemma {:induction false} DistinctPrefix(labels: seq<LabelRecord>, n: nat)
    requires n <= |labels| && Distinct(AllRevisions(labels))
    ensures Distinct(AllRevisions(labels[..n]))
    decreases |labels|
  {
    if n < |labels| {
      var m := |labels| - 1;
      DistinctConcat(AllRevisions(labels[..m]), Revisions(labels[m]));
      DistinctPrefix(labels[..m], n);
      assert labels[..m][..n] == labels[..n];
    } else {
      assert labels[..n] == labels;
    }
  }

  lemma LabelsNext(labels: seq<LabelRecord>, i: nat, ctx: Context)
    requires i < |labels| && LabelsAccepted(labels[..i], ctx) && IdOf(labels[i]) in ctx.cases
    ensures var before := Elements(AllRevisions(labels[..i]));
            && (LabelsAccepted(labels[..i + 1], ctx) <==>
                  LabelAccepted(labels[i], IdOf(labels[i]), ctx) && Fresh(Revisions(labels[i]), before))
            && Elements(AllRevisions(labels[..i + 1])) == before + Elements(Revisions(labels[i]))
  {
    assert labels[..i + 1][..i] == labels[..i] && labels[..i + 1][i] == labels[i];
    assert labels[..i + 1] == labels[..i] + [labels[i]];
    DistinctConcat(AllRevisions(labels[..i]), Revisions(labels[i]));
  }

  lemma LabelsPrefix(labels: seq<LabelRecord>, i: nat, ctx: Context)
    requires i <= |labels| && LabelsAccepted(labels, ctx)
    ensures LabelsAccepted(labels[..i], ctx)
  {
    DistinctPrefix(labels, i);
  }

  lemma BadPrefix(labels: seq<LabelRecord>, i: nat, ctx: Context)
    requires i <= |labels| && !LabelsAccepted(labels[..i], ctx)
    ensures !LabelsAccepted(labels, ctx)
  {
    if LabelsAccepted(labels, ctx) { LabelsPrefix(labels, i, ctx); }
  }

  lemma CountNext(labels: seq<LabelRecord>, i: nat, ctx: Context, split: string)
    requires i < |labels| && IdOf(labels[i]) in ctx.cases
    ensures ReviewCount(labels[..i + 1], ctx, split)
            == ReviewCount(labels[..i], ctx, split)
               + if ctx.cases[IdOf(labels[i])].split == split && Counted(labels[i], IdOf(labels[i]), ctx) then 1 else 0
  {
    assert labels[..i + 1][..i] == labels[..i];
  }

  lemma CountsNext(labels: seq<LabelRecord>, i: nat, ctx: Context, before: map<string, nat>, after: map<string, nat>)
    requires i < |labels| && IdOf(labels[i]) in ctx.cases
    requires forall split :: CountIn(before, split) == ReviewCount(labels[..i], ctx, split)
    requires var (id, split) := (IdOf(labels[i]), ctx.cases[IdOf(labels[i])].split);
             after == if Counted(labels[i], id, ctx) then before[split := CountIn(before, split) + 1] else before
    ensures forall split :: CountIn(after, split) == ReviewCount(labels[..i + 1], ctx, split)
  {
    forall split ensures CountIn(after, split) == ReviewCount(labels[..i + 1], ctx, split) {
      CountNext(labels, i, ctx, split);
    }
  }

  method ValidateLabels(labels: seq<LabelRecord>, ctx: Context) returns (r: Result<map<string, nat>, Rejection>)
    requires forall i :: 0 <= i < |labels| ==> IdOf(labels[i]) in ctx.cases
    ensures r.Ok? <==> LabelsAccepted(labels, ctx)
    ensures r.Err? ==> r.error != MissingLabel
    ensures r.Ok? ==> forall split :: CountIn(r.value, split) == ReviewCount(labels, ctx, split)
  {
    var seen := new SeenRevisions();
    var counts: map<string, nat> := map[];
    var i := 0;
    while i < |labels|
      invariant 0 <= i <= |labels|
      invariant LabelsAccepted(labels[..i], ctx)
      invariant seen.revisions == Elements(AllRevisions(labels[..i]))
      invariant forall split :: CountIn(counts, split) == ReviewCount(labels[..i], ctx, split)
    {
      var l := labels[i];
      var id := IdOf(l);
      LabelsNext(labels, i, ctx);
      var error := ValidateLabel(l, id, ctx, seen);
      if error.Some? {
        BadPrefix(labels, i + 1, ctx);
        return Err(error.value);
      }
      ghost var before := counts;
      if Counted(l, id, ctx) {
        counts := counts[ctx.cases[id].split := CountIn(counts, ctx.cases[id].split) + 1];
      }
      CountsNext(labels, i, ctx, before, counts);
      i := i + 1;
    }
    assert labels[..i] == labels;
    return Ok(counts);
  }

  // ---- The whole manifest ----

  predicate SecondSchema(m: Manifest) {
    m.schemaVersion == Str("release-review-manifest/v2")
  }

  predicate SameText(a: Json, b: Json, read: Reader) {
    Text(a, read).Some? && Text(a, read) == Text(b, read)
  }

  predicate ProvenanceAccepted(m: Manifest, sel: Selection, read: Reader) {
    && SameText(m.selectionId, sel.selectionId, read)
    && SameText(m.caseDigest, sel.caseDigest, read) && Hex(m.caseDigest.s, 64)
    && SameText(m.truthDigest, sel.truthDigest, read) && Hex(m.truthDigest.s, 64)
  }

  // The selection was fixed, without replacement, before the freeze.
  predicate PolicyAccepted(p: Policy, frozenAt: int, read: Reader) {
    && TimeOf(p.recordedAt, read).Some? && TimeOf(p.recordedAt, read).value <= frozenAt
    && p.beforeExecution == Bool(true) && p.replacement == Str("no_replacement")
  }

  function ModeNamed(j: Json): Option<Mode> {
    if j == Str("internal") then Some(Internal) else if j == Str("independent") then Some(Independent) else None
  }

  predicate ModeAccepted(m: ModeRecord, read: Reader) {
    && m.schemaVersion == Str("evaluation-review-mode/v1") && m.custodyClaimed == Bool(false)
    && Text(m.mode, read).Some? && Text(m.status, read).Some? && Text(m.disclosure, read).Some?
    && match ModeNamed(m.mode)
       case None => false
       case Some(Internal) =>
         && m.status == Str("not_performed") && m.disclosure == Str("results_not_independently_validated")
         && Text(m.rationale, read).Some?
       case Some(Independent) => m.status == Str("completed") && m.disclosure == Str("independently_reviewed")
  }

  predicate CandidateAccepted(m: Manifest, read: Reader) {
    && m.candidate.Mapping? && Text(m.candidate.m.commitSha, read).Some? && Hex(m.candidate.m.commitSha.s, 40)
    && TimeOf(m.candidate.m.frozenAt, read).Some?
  }

  predicate HeaderAccepted(m: Manifest, sel: Selection, suite: Suite, read: Reader) {
    && Text(m.schemaVersion, read).Some? && (m.schemaVersion == Str("release-review-manifest/v1") || SecondSchema(m))
    && (!SecondSchema(m) ==> m.reviewMode.None?)
    && Text(m.datasetVersion, read) == Some(suite.suiteId)
    && ProvenanceAccepted(m, sel, read) && CandidateAccepted(m, read)
    && (SecondSchema(m) ==>
          && sel.policy.Mapping? && PolicyAccepted(sel.policy.m, TimeOf(m.candidate.m.frozenAt, read).value, read)
          && m.reviewMode.Some? && m.reviewMode.value.Mapping? && ModeAccepted(m.reviewMode.value.m, read))
  }

  function ModeOf(m: Manifest): Mode {
    if SecondSchema(m) && m.reviewMode.Some? && m.reviewMode.value.Mapping? && ModeNamed(m.reviewMode.value.m.mode).Some?
    then ModeNamed(m.reviewMode.value.m.mode).value
    else Independent
  }

  predicate AttestationValid(a: AttestationRecord, read: Reader) {
    && Text(a.reviewerId, read).Some? && Text(a.qualification, read).Some? && TimeOf(a.attestedAt, read).Some?
    && a.eligible.Bool? && a.independent.Bool?
  }

  predicate SelectionAccepted(sel: Selection, cases: map<string, Case>, read: Reader) {
    && sel.selectedCases.List? && Indexed(sel.selectedCases.items, SelectedId, read)
    && (forall i :: 0 <= i < |sel.selectedCases.items| ==>
          sel.selectedCases.items[i].Mapping? && Known(sel.selectedCases.items[i].m.caseId, cases))
    && |Table(sel.selectedCases.items, SelectedId, read)| == 20
  }

  predicate Known(id: Json, cases: map<string, Case>) {
    id.Str? && id.s in cases
  }

  predicate AttestationsAccepted(m: Manifest, read: Reader) {
    && m.attestations.List? && Indexed(m.attestations.items, AttestationId, read)
    && forall i :: 0 <= i < |m.attestations.items| ==>
         m.attestations.items[i].Mapping? && AttestationValid(m.attestations.items[i].m, read)
  }

  predicate LabelListAccepted(m: Manifest, cases: map<string, Case>, read: Reader) {
    && m.labels.List? && Indexed(m.labels.items, LabelId, read)
    && forall i :: 0 <= i < |m.labels.items| ==> m.labels.items[i].Mapping? && Known(m.labels.items[i].m.caseId, cases)
  }

  function Records<T>(items: seq<Found<T>>): (r: seq<T>)
    requires forall i :: 0 <= i < |items| ==> items[i].Mapping?
    ensures |r| == |items| && forall i :: 0 <= i < |r| ==> r[i] == items[i].m
  {
    if items == [] then [] else Records(items[..|items| - 1]) + [items[|items| - 1].m]
  }

  function ContextOf(m: Manifest, sel: Selection, suite: Suite, read: Reader): Context
    requires CandidateAccepted(m, read) && sel.selectedCases.List? && m.attestations.List?
  {
    Context(suite.cases, Table(sel.selectedCases.items, SelectedId, read).Keys,
            Table(m.attestations.items, AttestationId, read), ModeOf(m),
            m.candidate.m.commitSha.s, TimeOf(m.candidate.m.frozenAt, read).value, read)
  }

  ghost predicate CountsAccepted(labels: seq<LabelRecord>, ctx: Context) {
    ctx.mode.Independent? ==>
      forall split :: ReviewCount(labels, ctx, split) == if split == VALIDATION || split == HOLDOUT then 10 else 0
  }

  predicate StatusAccepted(status: StatusRecord, mode: Mode, second: bool) {
    if mode.Internal? then
      && status.primaryComplete == Bool(true) && status.independentComplete == Bool(false)
      && status.adjudicationComplete == Bool(false) && status.eligible == Bool(false)
      && status.allReviewsComplete != Bool(true) && status.allResolved != Bool(true)
    else
      && status.allReviewsComplete == Bool(true) && status.allResolved == Bool(true) && status.eligible == Bool(true)
      && (second ==> status.independentComplete == Bool(true) && status.adjudicationComplete == Bool(true))
  }

  // When the evidence as a whole is accepted.
  ghost predicate Accepted(m: Manifest, sel: Selection, suite: Suite, read: Reader) {
    && HeaderAccepted(m, sel, suite, read) && SelectionAccepted(sel, suite.cases, read)
    && AttestationsAccepted(m, read) && LabelListAccepted(m, suite.cases, read)
    && EvidenceAccepted(m, Table(m.labels.items, LabelId, read), Records(m.labels.items), ContextOf(m, sel, suite, read))
  }

  predicate NoneIndependent(attestations: map<string, AttestationRecord>) {
    forall id :: id in attestations ==> attestations[id].independent != Bool(true)
  }

  datatype Summary = Summary(
    suiteId: string, caseCount: nat, validationReviews: nat, holdoutReviews: nat, candidateSha: string,
    mode: Mode, accessEvents: nat)

  // Whether the counter holds exactly ten reviews of each required split.
  method CheckCounts(counts: map<string, nat>, labels: seq<LabelRecord>, ctx: Context) returns (ok: bool)
    requires forall split :: CountIn(counts, split) == ReviewCount(labels, ctx, split)
    ensures ok <==> CountsAccepted(labels, ctx)
  {
    if ctx.mode.Internal? { return true; }
    ok := CountIn(counts, VALIDATION) == 10 && CountIn(counts, HOLDOUT) == 10
          && forall split :: split in counts ==> split == VALIDATION || split == HOLDOUT || counts[split] == 0;
    if CountsAccepted(labels, ctx) {
      assert ReviewCount(labels, ctx, VALIDATION) == 10 && ReviewCount(labels, ctx, HOLDOUT) == 10;
      forall split | split in counts ensures split == VALIDATION || split == HOLDOUT || counts[split] == 0 {
        assert ReviewCount(labels, ctx, split) == CountIn(counts, split);
      }
    }
  }

  // The three indexes: attestations and labels by identifier, and which of the
  // cases are selected.
  method ReadRecords(m: Manifest, sel: Selection, suite: Suite, read: Reader)
    returns (r: Result<(map<string, AttestationRecord>, map<string, LabelRecord>, set<string>), Rejection>)
    ensures r.Err? ==> r.error != MissingLabel
    ensures r.Ok? <==> SelectionAccepted(sel, suite.cases, read) && AttestationsAccepted(m, read)
                       && LabelListAccepted(m, suite.cases, read)
    ensures r.Ok? ==> r.value == (Table(m.attestations.items, AttestationId, read), Table(m.labels.items, LabelId, read),
                                  Table(sel.selectedCases.items, SelectedId, read).Keys)
  {
    if !sel.selectedCases.List? { return Err(BadSelection); }
    var selected := Index(sel.selectedCases.items, SelectedId, (c: SelectedCase) => Known(c.caseId, suite.cases), read);
    if selected.None? || |selected.value| != 20 { return Err(BadSelection); }
    if !m.attestations.List? { return Err(BadAttestation); }
    var attestations := Index(m.attestations.items, AttestationId, (a: AttestationRecord) => AttestationValid(a, read), read);
    if attestations.None? { return Err(BadAttestation); }
    if !m.labels.List? { return Err(BadLabel); }
    var labels := Index(m.labels.items, LabelId, (l: LabelRecord) => Known(l.caseId, suite.cases), read);
    if labels.None? { return Err(BadLabel); }
    return Ok((attestations.value, labels.value, selected.value.Keys));
  }

  ghost predicate EvidenceAccepted(m: Manifest, table: map<string, LabelRecord>, labels: seq<LabelRecord>, ctx: Context) {
    && (SecondSchema(m) ==> m.holdoutAccess.Mapping? && HoldoutAccepted(m.holdoutAccess.m, table, ctx))
    && (ctx.mode.Internal? ==> NoneIndependent(ctx.attestations))
    && LabelsAccepted(labels, ctx) && table.Keys == ctx.cases.Keys && CountsAccepted(labels, ctx)
    && m.releaseStatus.Mapping? && StatusAccepted(m.releaseStatus.m, ctx.mode, SecondSchema(m))
  }

  // A lawful access names a case whose label the manifest lacks.
  ghost predicate LabelIsMissed(m: Manifest, table: map<string, LabelRecord>, ctx: Context) {
    SecondSchema(m) && m.holdoutAccess.Mapping? && AccessCrashes(m.holdoutAccess.m, table, ctx)
  }

  method VerifyEvidence(m: Manifest, table: map<string, LabelRecord>, labels: seq<LabelRecord>, ctx: Context)
    returns (r: Result<(nat, map<string, nat>), Rejection>)
    requires forall i :: 0 <= i < |labels| ==> IdOf(labels[i]) in ctx.cases
    ensures r.Ok? <==> EvidenceAccepted(m, table, labels, ctx)
    ensures r == Err(MissingLabel) <==> LabelIsMissed(m, table, ctx)
    ensures r.Ok? ==> r.value.0 == if SecondSchema(m) then |m.holdoutAccess.m.events.items| else 0
    ensures r.Ok? ==> forall split :: CountIn(r.value.1, split) == ReviewCount(labels, ctx, split)
  {
    var accessEvents := 0;
    if SecondSchema(m) {
      if !m.holdoutAccess.Mapping? { return Err(BadAccess); }
      var access := ValidateHoldoutAccess(m.holdoutAccess.m, table, ctx);
      if access.Err? { return Err(access.error); }
      accessEvents := access.value;
    }
    if ctx.mode.Internal? && !NoneIndependent(ctx.attestations) { return Err(BadAttestation); }
    var validated := ValidateLabels(labels, ctx);
    if validated.Err? { return Err(validated.error); }
    if table.Keys != ctx.cases.Keys { return Err(BadCoverage); }
    var counted := CheckCounts(validated.value, labels, ctx);
    if !counted { return Err(BadCounts); }
    if !m.releaseStatus.Mapping? || !StatusAccepted(m.releaseStatus.m, ctx.mode, SecondSchema(m)) { return Err(BadStatus); }
    return Ok((accessEvents, validated.value));
  }

  // The validator itself fails, before it has reached a verdict.
  ghost predicate Crashes(m: Manifest, sel: Selection, suite: Suite, read: Reader) {
    && HeaderAccepted(m, sel, suite, read) && SelectionAccepted(sel, suite.cases, read)
    && AttestationsAccepted(m, read) && LabelListAccepted(m, suite.cases, read)
    && LabelIsMissed(m, Table(m.labels.items, LabelId, read), ContextOf(m, sel, suite, read))
  }

  method Verify(m: Manifest, sel: Selection, suite: Suite, read: Reader) returns (r: Result<Summary, Rejection>)
    ensures r.Ok? <==> Accepted(m, sel, suite, read)
    ensures r == Err(MissingLabel) <==> Crashes(m, sel, suite, read)
    ensures r.Ok? ==>
              && r.value.suiteId == suite.suiteId && r.value.caseCount == |suite.cases| && r.value.mode == ModeOf(m)
              && r.value.candidateSha == m.candidate.m.commitSha.s
              && r.value.accessEvents == (if SecondSchema(m) then |m.holdoutAccess.m.events.items| else 0)
              && (r.value.mode.Independent? ==> r.value.validationReviews == r.value.holdoutReviews == 10)
  {
    if !HeaderAccepted(m, sel, suite, read) { return Err(BadManifest); }
    var records := ReadRecords(m, sel, suite, read);
    if records.Err? { return Err(records.error); }
    var (attestations, table, selected) := records.value;
    var ctx := Context(suite.cases, selected, attestations, ModeOf(m),
                       m.candidate.m.commitSha.s, TimeOf(m.candidate.m.frozenAt, read).value, read);
    var evidence := VerifyEvidence(m, table, Records(m.labels.items), ctx);
    if evidence.Err? { return Err(evidence.error); }
    SameKeysSameSize(table, suite.cases);
    return Ok(Summary(
      suite.suiteId, |table|, CountIn(evidence.value.1, VALIDATION), CountIn(evidence.value.1, HOLDOUT),
      ctx.candidateSha, ctx.mode, evidence.value.0));
  }

  lemma SameKeysSameSize<T, U>(a: map<string, T>, b: map<string, U>)
    requires a.Keys == b.Keys
    ensures |a| == |b|
  {
    assert |a| == |a.Keys| && |b| == |b.Keys|;
  }

  // ---- What accepted evidence guarantees ----

  ghost function LabelsIn(m: Manifest): seq<LabelRecord>
    requires m.labels.List? && forall i :: 0 <= i < |m.labels.items| ==> m.labels.items[i].Mapping?
  {
    Records(m.labels.items)
  }

  // The labels cover exactly the suite, each case once.
  lemma CoverageIsExact(m: Manifest, sel: Selection, suite: Suite, read: Reader)
    requires Accepted(m, sel, suite, read)
    ensures forall i, j :: 0 <= i < j < |LabelsIn(m)| ==> IdOf(LabelsIn(m)[i]) != IdOf(LabelsIn(m)[j])
    ensures forall id :: id in suite.cases <==> exists i :: 0 <= i < |LabelsIn(m)| && IdOf(LabelsIn(m)[i]) == id
  {
    var items, labels := m.labels.items, LabelsIn(m);
    forall i | 0 <= i < |labels| ensures Known(labels[i].caseId, suite.cases) {
      assert items[i].Mapping? && Known(items[i].m.caseId, suite.cases);
    }
    forall i, j | 0 <= i < j < |labels| ensures IdOf(labels[i]) != IdOf(labels[j]) {
      assert Named(items[i], LabelId, read) && Named(items[j], LabelId, read);
    }
    forall id | id in suite.cases ensures exists i :: 0 <= i < |labels| && IdOf(labels[i]) == id {
      assert id in Table(items, LabelId, read).Keys;
      var i := TableKey(items, LabelId, read, id);
      assert IdOf(labels[i]) == id;
    }
  }

  lemma {:induction false} RevisionIsListed(labels: seq<LabelRecord>, i: nat, r: string)
    requires i < |labels| && r in Revisions(labels[i])
    ensures r in AllRevisions(labels)
  {
    var n := |labels| - 1;
    if i < n { RevisionIsListed(labels[..n], i, r); }
  }

  lemma LastIsFresh(labels: seq<LabelRecord>, r: string)
    requires labels != [] && Distinct(AllRevisions(labels)) && r in AllRevisions(labels[..|labels| - 1])
    ensures r !in Revisions(labels[|labels| - 1])
  {
    var n := |labels| - 1;
    DistinctConcat(AllRevisions(labels[..n]), Revisions(labels[n]));
    assert r in Elements(AllRevisions(labels[..n]));
  }

  lemma LastSharesNoRevision(labels: seq<LabelRecord>, i: nat, r: string)
    requires Distinct(AllRevisions(labels)) && i < |labels| - 1 && r in Revisions(labels[i])
    ensures r !in Revisions(labels[|labels| - 1])
  {
    RevisionIsListed(labels[..|labels| - 1], i, r);
    LastIsFresh(labels, r);
  }

  // Distinct revisions also means that no two labels share one.
  lemma {:induction false} LabelsShareNoRevision(labels: seq<LabelRecord>, i: nat, j: nat, r: string)
    requires Distinct(AllRevisions(labels)) && i < j < |labels| && r in Revisions(labels[i])
    ensures r !in Revisions(labels[j])
  {
    if j < |labels| - 1 {
      DistinctPrefix(labels, |labels| - 1);
      LabelsShareNoRevision(labels[..|labels| - 1], i, j, r);
    } else {
      LastSharesNoRevision(labels, i, r);
    }
  }

  // What the final revision of an accepted label is, by mode.
  lemma AcceptedLabelIsFinal(l: LabelRecord, id: string, ctx: Context)
    requires id in ctx.cases && LabelAccepted(l, id, ctx)
    ensures l.primary.Mapping? && l.finalRevision.Str? && l.finalRevision.s in Revisions(l)
    ensures ctx.mode.Internal? ==> Revisions(l) == [l.finalRevision.s] && l.finalRevision == l.primary.m.revision
    ensures l.independent.Mapping? ==>
              l.independent.m.blind == Bool(true) && l.independent.m.reviewerId != l.primary.m.reviewerId
    ensures l.adjudication.Mapping? ==>
              && l.independent.Mapping? && l.finalRevision == l.adjudication.m.revision
              && l.adjudication.m.reviewerId != l.primary.m.reviewerId
              && l.adjudication.m.reviewerId != l.independent.m.reviewerId
  {
    var r := Revisions(l);
    assert r[0] == RevisionOf(l.primary.m);
    if l.independent.Mapping? { assert r[1] == RevisionOf(l.independent.m); }
    if l.adjudication.Mapping? { assert r[|r| - 1] == RevisionOf(l.adjudication.m); }
  }

  // Every final revision is a review of its own case and of no other, so the
  // approved revisions of two cases always differ.  Internal mode leaves a
  // single review, the primary one, and makes it final.
  lemma FinalsAreOwnReviews(m: Manifest, sel: Selection, suite: Suite, read: Reader, i: nat, j: nat)
    requires Accepted(m, sel, suite, read) && i < |LabelsIn(m)| && j < |LabelsIn(m)| && i != j
    ensures var (l, other) := (LabelsIn(m)[i], LabelsIn(m)[j]);
            && Distinct(AllRevisions(LabelsIn(m)))
            && l.finalRevision.Str? && l.finalRevision.s in Revisions(l) && l.finalRevision.s !in Revisions(other)
            && l.finalRevision != other.finalRevision
            && (ModeOf(m).Internal? ==> l.primary.Mapping? && l.finalRevision == l.primary.m.revision && |Revisions(l)| == 1)
  {
    var labels, ctx := LabelsIn(m), ContextOf(m, sel, suite, read);
    assert LabelAccepted(labels[i], IdOf(labels[i]), ctx) && LabelAccepted(labels[j], IdOf(labels[j]), ctx);
    AcceptedLabelIsFinal(labels[i], IdOf(labels[i]), ctx);
    AcceptedLabelIsFinal(labels[j], IdOf(labels[j]), ctx);
    if i < j {
      LabelsShareNoRevision(labels, i, j, labels[i].finalRevision.s);
    } else {
      if labels[i].finalRevision.s in Revisions(labels[j]) {
        LabelsShareNoRevision(labels, j, i, labels[i].finalRevision.s);
      }
    }
  }

  ghost function SelectedOf(ctx: Context, split: string): set<string> {
    set id | id in ctx.selected && id in ctx.cases && ctx.cases[id].split == split
  }

  ghost function CountedIds(labels: seq<LabelRecord>, ctx: Context, split: string): set<string> {
    set i | 0 <= i < |labels| && IdOf(labels[i]) in ctx.cases && ctx.cases[IdOf(labels[i])].split == split
            && Counted(labels[i], IdOf(labels[i]), ctx) :: IdOf(labels[i])
  }

  // With distinct labels, the counter counts cases.
  lemma {:induction false} CountIsOfCases(labels: seq<LabelRecord>, ctx: Context, split: string)
    requires forall i, j :: 0 <= i < j < |labels| ==> IdOf(labels[i]) != IdOf(labels[j])
    ensures ReviewCount(labels, ctx, split) == |CountedIds(labels, ctx, split)|
  {
    if labels != [] {
      var n := |labels| - 1;
      var (rest, last) := (labels[..n], labels[n]);
      CountIsOfCases(rest, ctx, split);
      var before := CountedIds(rest, ctx, split);
      if IdOf(last) in ctx.cases && ctx.cases[IdOf(last)].split == split && Counted(last, IdOf(last), ctx) {
        assert IdOf(last) !in before;
        assert CountedIds(labels, ctx, split) == before + {IdOf(last)} by { CountedIdsNext(labels, ctx, split); }
      } else {
        assert CountedIds(labels, ctx, split) == before by { CountedIdsNext(labels, ctx, split); }
      }
    }
  }

  lemma CountedIdsNext(labels: seq<LabelRecord>, ctx: Context, split: string)
    requires labels != []
    ensures var (rest, last) := (labels[..|labels| - 1], labels[|labels| - 1]);
            CountedIds(labels, ctx, split)
            == CountedIds(rest, ctx, split)
               + if IdOf(last) in ctx.cases && ctx.cases[IdOf(last)].split == split && Counted(last, IdOf(last), ctx)
                 then {IdOf(last)} else {}
  {
    var rest := labels[..|labels| - 1];
    forall id | id in CountedIds(rest, ctx, split) ensures id in CountedIds(labels, ctx, split) {
      var i :| 0 <= i < |rest| && IdOf(rest[i]) == id && id in ctx.cases && ctx.cases[id].split == split
               && Counted(rest[i], id, ctx);
      assert labels[i] == rest[i];
    }
    forall id | id in CountedIds(labels, ctx, split) && id != IdOf(labels[|labels| - 1])
      ensures id in CountedIds(rest, ctx, split)
    {
      var i :| 0 <= i < |labels| && IdOf(labels[i]) == id && id in ctx.cases && ctx.cases[id].split == split
               && Counted(labels[i], id, ctx);
      assert rest[i] == labels[i];
    }
  }

  // Independent mode: each selected case has a blind review by a second person.
  lemma SelectedIsReviewed(m: Manifest, sel: Selection, suite: Suite, read: Reader, id: string) returns (i: nat)
    requires Accepted(m, sel, suite, read) && ModeOf(m).Independent? && id in ContextOf(m, sel, suite, read).selected
    ensures id in suite.cases && i < |LabelsIn(m)| && IdOf(LabelsIn(m)[i]) == id
    ensures BlindlyReviewed(LabelsIn(m)[i], ContextOf(m, sel, suite, read))
  {
    CoverageIsExact(m, sel, suite, read);
    var k := TableKey(sel.selectedCases.items, SelectedId, read, id);
    assert Known(sel.selectedCases.items[k].m.caseId, suite.cases);
    i :| 0 <= i < |LabelsIn(m)| && IdOf(LabelsIn(m)[i]) == id;
    assert LabelAccepted(LabelsIn(m)[i], id, ContextOf(m, sel, suite, read));
  }

  ghost predicate HasSecondReview(labels: seq<LabelRecord>, id: string) {
    exists i :: 0 <= i < |labels| && IdOf(labels[i]) == id && labels[i].independent.Mapping?
  }

  lemma CountedAreSelected(labels: seq<LabelRecord>, ctx: Context, split: string)
    requires forall id :: id in ctx.selected ==> HasSecondReview(labels, id)
    ensures CountedIds(labels, ctx, split) == SelectedOf(ctx, split)
  {
    forall id | id in SelectedOf(ctx, split) ensures id in CountedIds(labels, ctx, split) {
      assert HasSecondReview(labels, id);
      var i :| 0 <= i < |labels| && IdOf(labels[i]) == id && labels[i].independent.Mapping?;
      assert Counted(labels[i], IdOf(labels[i]), ctx);
    }
  }

  // It follows that ten selected cases are for validation and ten held out.
  lemma IndependentModeReviewsTwenty(m: Manifest, sel: Selection, suite: Suite, read: Reader, split: string)
    requires Accepted(m, sel, suite, read) && ModeOf(m).Independent?
    ensures |SelectedOf(ContextOf(m, sel, suite, read), split)| == if split == VALIDATION || split == HOLDOUT then 10 else 0
  {
    var labels, ctx := LabelsIn(m), ContextOf(m, sel, suite, read);
    forall id | id in ctx.selected ensures HasSecondReview(labels, id) {
      var i := SelectedIsReviewed(m, sel, suite, read, id);
    }
    CoverageIsExact(m, sel, suite, read);
    CountIsOfCases(labels, ctx, split);
    CountedAreSelected(labels, ctx, split);
    assert CountsAccepted(labels, ctx);
  }

  predicate BlindlyReviewed(l: LabelRecord, ctx: Context) {
    && l.primary.Mapping? && l.independent.Mapping? && l.independent.m.blind == Bool(true)
    && l.independent.m.outputVisible == Bool(false) && ReviewAccepted(l.independent.m, ctx, true)
    && l.independent.m.reviewerId != l.primary.m.reviewerId
  }

  lemma {:induction false} AccessForCase(events: seq<Found<AccessEvent>>, purpose: Purpose, id: string) returns (i: nat)
    requires id in AccessedFor(events, purpose)
    ensures i < |events| && events[i].Mapping? && PurposeOf(events[i].m.purpose) == Some(purpose)
    ensures events[i].m.caseIds.Arr? && Str(id) in events[i].m.caseIds.items
  {
    var n := |events| - 1;
    if id in AccessedFor(events[..n], purpose) {
      i := AccessForCase(events[..n], purpose, id);
    } else {
      i := n;
    }
  }

  // Under the second schema, every selected holdout case was opened for the
  // assessment of this very candidate, after its freeze, by the person whose
  // primary review counts; in independent mode likewise for the second review.
  lemma HoldoutsWereAccessedProperly(m: Manifest, sel: Selection, suite: Suite, read: Reader, id: string)
    returns (assessment: AccessEvent)
    requires Accepted(m, sel, suite, read) && SecondSchema(m) && id in SelectedHoldouts(ContextOf(m, sel, suite, read))
    ensures Mapping(assessment) in m.holdoutAccess.m.events.items
    ensures assessment.caseIds.Arr? && Str(id) in assessment.caseIds.items
    ensures assessment.candidateSha == Some(m.candidate.m.commitSha)
    ensures TimeOf(assessment.accessedAt, read).Some?
            && TimeOf(assessment.accessedAt, read).value >= TimeOf(m.candidate.m.frozenAt, read).value
    ensures id in Table(m.labels.items, LabelId, read)
            && var l := Table(m.labels.items, LabelId, read)[id];
               l.primary.Mapping? && assessment.accessor == l.primary.m.reviewerId
  {
    var ctx, events := ContextOf(m, sel, suite, read), m.holdoutAccess.m.events.items;
    var i := AccessForCase(events, CandidateAssessment, id);
    assessment := events[i].m;
    assert EventAccepted(assessment, Table(m.labels.items, LabelId, read), ctx);
    var k :| 0 <= k < |assessment.caseIds.items| && assessment.caseIds.items[k] == Str(id);
    assert CaseAccessAccepted(assessment, assessment.caseIds.items[k], Table(m.labels.items, LabelId, read), ctx);
  }
}
