// A truthful internal release manifest that the validator accepts, and the same
// manifest without its labels, on which the validator itself fails.
module ReleaseWitness {
  import opened Basics
  import opened JsonTree
  import opened LabelCompleteness
  import opened ReleaseClaims

  // Text is what is not empty, and the one timestamp is an instant.
  function Plain(): Reader {
    Reader(s => s == "", s => if s == "now" then Some(0) else None)
  }

  function Digits(n: nat): string {
    seq(n, _ => '0')
  }

  // Twenty cases, named by their length.
  function CaseId(i: nat): string {
    seq(i + 1, _ => 'c')
  }

  lemma CaseIdsDiffer(i: nat, j: nat)
    ensures CaseId(i) == CaseId(j) ==> i == j
    ensures CaseId(i) != ""
  {
    assert |CaseId(i)| == i + 1 && |CaseId(j)| == j + 1;
  }

  function SplitOf(i: nat): string {
    if i == 0 then "holdout" else "validation"
  }

  function Cases(n: nat): map<string, Case> {
    if n == 0 then map[] else Cases(n - 1)[CaseId(n - 1) := Case(SplitOf(n - 1), "k")]
  }

  lemma {:induction false} CasesAre(n: nat)
    ensures forall id :: id in Cases(n) <==> exists i :: 0 <= i < n && CaseId(i) == id
    ensures forall i :: 0 <= i < n ==> CaseId(i) in Cases(n) && Cases(n)[CaseId(i)] == Case(SplitOf(i), "k")
  {
    if n > 0 {
      CasesAre(n - 1);
      forall i | 0 <= i < n - 1 ensures CaseId(i) != CaseId(n - 1) { CaseIdsDiffer(i, n - 1); }
    }
  }

  function Review(i: nat): ReviewRecord {
    ReviewRecord(Str(CaseId(i)), Str(Digits(64)), Str("alice"), Str("a"), Str("now"), Null, Null, Null)
  }

  function LabelFor(i: nat): LabelRecord {
    LabelRecord(Str(CaseId(i)), Str(SplitOf(i)), Str("k"), Mapping(Review(i)), Nothing,
                Mapping(DisagreementRecord(Str("none"), Arr([]))), Nothing, Str(CaseId(i)))
  }

  function Labels(n: nat): seq<Found<LabelRecord>> {
    seq(n, (i: nat) => Mapping(LabelFor(i)))
  }

  function SelectionOf(n: nat): Selection {
    Selection(Str("s"), Str(Digits(64)), Str(Digits(64)), Mapping(Policy(Str("now"), Bool(true), Str("no_replacement"))),
              List(seq(n, (i: nat) => Mapping(SelectedCase(Str(CaseId(i)))))))
  }

  function Access(): AccessEvent {
    AccessEvent(Str("e"), Str("alice"), Str("release_candidate_assessment"), Str("now"), Arr([Str(CaseId(0))]),
                Some(Str(Digits(40))))
  }

  const TRUTHFUL := StatusRecord(Bool(true), Bool(false), Bool(false), Bool(false), Null, Null)

  function ManifestOf(labels: seq<Found<LabelRecord>>): Manifest {
    Manifest(
      Str("release-review-manifest/v2"), Str("suite"), Str("s"), Str(Digits(64)), Str(Digits(64)),
      Mapping(Candidate(Str(Digits(40)), Str("now"))),
      Some(Mapping(ModeRecord(Str("evaluation-review-mode/v1"), Str("internal"), Str("not_performed"),
                              Str("results_not_independently_validated"), Bool(false), Str("why")))),
      List([Mapping(AttestationRecord(Str("a"), Str("alice"), Str("q"), Str("now"), Bool(true), Bool(false)))]),
      List(labels), Mapping(AccessLog(Str("holdout-access-log/v1"), List([Mapping(Access())]))), Mapping(TRUTHFUL))
  }

  function SuiteOf(): Suite {
    Suite("suite", Cases(20))
  }

  lemma HeaderHolds(labels: seq<Found<LabelRecord>>)
    ensures HeaderAccepted(ManifestOf(labels), SelectionOf(20), SuiteOf(), Plain())
    ensures SaysInternal(ManifestOf(labels)) && ModeOf(ManifestOf(labels)) == Internal
  {
    var (m, sel, read) := (ManifestOf(labels), SelectionOf(20), Plain());
    assert Digits(64) != "" && Digits(40) != "";
    assert Provenance(m, sel, read) && FrozenCandidate(m, read);
    assert SelectedBeforehand(sel.policy.m, 0, read);
    assert DisclosedMode(m.reviewMode.value.m, read);
    HeaderExactly(m, sel, SuiteOf(), read);
    ModeIsDisclosed(m, sel, SuiteOf(), read);
  }

  lemma SelectionHolds()
    ensures SelectionAccepted(SelectionOf(20), Cases(20), Plain())
  {
    CasesAre(20);
    forall i, j | 0 <= i < j < 20 ensures CaseId(i) != CaseId(j) { CaseIdsDiffer(i, j); }
    forall i | 0 <= i < 20 ensures CaseId(i) != "" { CaseIdsDiffer(i, i); }
    SelectionExactly(SelectionOf(20), Cases(20), Plain());
  }

  lemma AttestationsHold(labels: seq<Found<LabelRecord>>)
    ensures AttestationsAccepted(ManifestOf(labels), Plain())
    ensures var t := Table(ManifestOf(labels).attestations.items, AttestationId, Plain());
            t.Keys == {"a"} && t["a"] == AttestationRecord(Str("a"), Str("alice"), Str("q"), Str("now"), Bool(true), Bool(false))
  {
    var items := ManifestOf(labels).attestations.items;
    assert items[..0] == [];
    assert Named(items[0], AttestationId, Plain());
  }

  lemma LabelsIndexed(n: nat)
    ensures Indexed(Labels(n), LabelId, Plain())
  {
    var items := Labels(n);
    forall i | 0 <= i < n ensures Named(items[i], LabelId, Plain()) { CaseIdsDiffer(i, i); }
    forall i, j | 0 <= i < j < n ensures LabelId(items[i].m) != LabelId(items[j].m) { CaseIdsDiffer(i, j); }
  }

  lemma LabelTable(n: nat)
    ensures Indexed(Labels(n), LabelId, Plain())
    ensures Table(Labels(n), LabelId, Plain()).Keys == Cases(n).Keys
    ensures forall i :: 0 <= i < n ==> CaseId(i) in Table(Labels(n), LabelId, Plain())
                                       && Table(Labels(n), LabelId, Plain())[CaseId(i)] == LabelFor(i)
  {
    var (items, table) := (Labels(n), Table(Labels(n), LabelId, Plain()));
    LabelsIndexed(n);
    forall i: nat | i < n ensures CaseId(i) in table && table[CaseId(i)] == LabelFor(i) {
      TableItem(items, LabelId, Plain(), i);
      assert LabelId(items[i].m) == Str(CaseId(i));
    }
    CasesAre(n);
    forall id | id in table ensures id in Cases(n) {
      var i := TableKey(items, LabelId, Plain(), id);
      assert LabelId(items[i].m) == Str(CaseId(i));
    }
    forall id | id in Cases(n) ensures id in table {
      var i: nat :| i < n && CaseId(i) == id;
    }
  }

  lemma LabelsListed(labels: seq<Found<LabelRecord>>, n: nat)
    requires labels == Labels(n) && n <= 20
    ensures LabelListAccepted(ManifestOf(labels), Cases(20), Plain())
  {
    LabelTable(n);
    CasesAre(20);
  }

  function ContextFor(labels: seq<Found<LabelRecord>>): Context {
    ContextOf(ManifestOf(labels), SelectionOf(20), SuiteOf(), Plain())
  }

  ghost predicate Setting(ctx: Context, n: nat) {
    && ctx.cases == Cases(n) && ctx.mode == Internal && ctx.candidateSha == Digits(40) && ctx.frozenAt == 0
    && ctx.read == Plain() && ctx.attestations.Keys == {"a"}
    && ctx.attestations["a"].reviewerId == Str("alice") && ctx.attestations["a"].eligible == Bool(true)
    && ctx.attestations["a"].independent == Bool(false)
  }

  lemma ContextIs(labels: seq<Found<LabelRecord>>)
    ensures Setting(ContextFor(labels), 20)
  {
    HeaderHolds(labels);
    AttestationsHold(labels);
  }

  lemma LabelHolds(ctx: Context, n: nat, i: nat)
    requires Setting(ctx, n) && i < n
    ensures CaseId(i) in ctx.cases && LabelAccepted(LabelFor(i), CaseId(i), ctx)
  {
    CasesAre(n);
    CaseIdsDiffer(i, i);
    assert Digits(64) != "";
    LabelExactly(LabelFor(i), CaseId(i), ctx);
  }

  lemma RecordsAre(n: nat)
    ensures |Records(Labels(n))| == n && forall i :: 0 <= i < n ==> Records(Labels(n))[i] == LabelFor(i)
  {
  }

  lemma {:induction false} RevisionsAre(records: seq<LabelRecord>)
    requires forall i: nat :: i < |records| ==> records[i] == LabelFor(i)
    ensures |AllRevisions(records)| == |records|
    ensures forall i: nat :: i < |records| ==> AllRevisions(records)[i] == CaseId(i)
  {
    if records != [] {
      var n := |records| - 1;
      RevisionsAre(records[..n]);
      OneRevision(n);
      assert records[n] == LabelFor(n);
    }
  }

  lemma OneRevision(i: nat)
    ensures Revisions(LabelFor(i)) == [CaseId(i)]
  {
  }

  lemma LabelsHold(ctx: Context, n: nat)
    requires Setting(ctx, n)
    ensures LabelsAccepted(Records(Labels(n)), ctx)
  {
    var records := Records(Labels(n));
    RecordsAre(n);
    RevisionsAre(records);
    forall i: nat, j: nat | i < j < n ensures AllRevisions(records)[i] != AllRevisions(records)[j] { CaseIdsDiffer(i, j); }
    forall i: nat | i < |records|
      ensures IdOf(records[i]) in ctx.cases && LabelAccepted(records[i], IdOf(records[i]), ctx)
    {
      assert records[i] == LabelFor(i);
      LabelHolds(ctx, n, i);
    }
  }

  lemma FirstCaseIsHeldOut(n: nat)
    requires n > 0
    ensures CaseId(0) in Cases(n) && Cases(n)[CaseId(0)].split == "holdout"
    ensures forall id :: id in Cases(n) && Cases(n)[id].split == "holdout" ==> id == CaseId(0)
  {
    CasesAre(n);
    assert |"holdout"| != |"validation"|;
    forall id | id in Cases(n) && Cases(n)[id].split == "holdout" ensures id == CaseId(0) {
      var i: nat :| i < n && CaseId(i) == id;
    }
  }

  lemma AccessIsLawful(ctx: Context, n: nat)
    requires Setting(ctx, n) && n > 0
    ensures LawfulAccess(Access(), ctx)
  {
    FirstCaseIsHeldOut(n);
    PurposesDiffer();
  }

  lemma OneEvent(events: seq<Found<AccessEvent>>)
    requires events == [Mapping(Access())]
    ensures Indexed(events, EventId, Plain()) && events[..0] == []
    ensures AccessedFor(events, CandidateAssessment) == {CaseId(0)}
  {
    assert events[..0] == [];
    PurposeExactly(Access().purpose);
    AccessedOne(Access());
  }

  lemma AccessedOne(e: AccessEvent)
    requires e.caseIds == Arr([Str(CaseId(0))])
    ensures AccessedIn(e) == {CaseId(0)}
  {
    assert Str(CaseId(0)) in e.caseIds.items;
  }

  lemma AccessHolds(ctx: Context, n: nat, log: AccessLog)
    requires Setting(ctx, n) && n > 0 && log == AccessLog(Str("holdout-access-log/v1"), List([Mapping(Access())]))
    ensures HoldoutAccepted(log, Table(Labels(n), LabelId, Plain()), ctx)
  {
    var table := Table(Labels(n), LabelId, Plain());
    AccessIsLawful(ctx, n);
    LabelTable(n);
    ByAlice(table);
    AccessExactly(Access(), table, ctx);
    OneEvent(log.events.items);
    FirstCaseIsHeldOut(n);
  }

  lemma ByAlice(table: map<string, LabelRecord>)
    requires CaseId(0) in table && table[CaseId(0)] == LabelFor(0)
    ensures ByItsReviewers(Access(), table)
  {
    PurposesDiffer();
  }

  // The internal manifest with truthful status passes.
  lemma TruthfulInternalManifestPasses()
    ensures Accepted(ManifestOf(Labels(20)), SelectionOf(20), SuiteOf(), Plain())
    ensures SaysInternal(ManifestOf(Labels(20))) && ManifestOf(Labels(20)).releaseStatus.m.eligible == Bool(false)
  {
    HeaderHolds(Labels(20));
    SelectionHolds();
    AttestationsHold(Labels(20));
    LabelsListed(Labels(20), 20);
    ContextIs(Labels(20));
    EvidenceHolds(ManifestOf(Labels(20)), ContextFor(Labels(20)), 20);
  }

  lemma EvidenceHolds(m: Manifest, ctx: Context, n: nat)
    requires Setting(ctx, n) && n > 0 && m.releaseStatus == Mapping(TRUTHFUL)
    requires m.holdoutAccess == Mapping(AccessLog(Str("holdout-access-log/v1"), List([Mapping(Access())])))
    ensures EvidenceAccepted(m, Table(Labels(n), LabelId, Plain()), Records(Labels(n)), ctx)
  {
    var (table, labels) := (Table(Labels(n), LabelId, Plain()), Records(Labels(n)));
    assert HoldoutAccepted(m.holdoutAccess.m, table, ctx) by { AccessHolds(ctx, n, m.holdoutAccess.m); }
    assert LabelsAccepted(labels, ctx) by { LabelsHold(ctx, n); }
    assert table.Keys == ctx.cases.Keys by { LabelTable(n); }
    EvidenceFollows(m, table, labels, ctx);
  }

  lemma EvidenceFollows(m: Manifest, table: map<string, LabelRecord>, labels: seq<LabelRecord>, ctx: Context)
    requires m.holdoutAccess.Mapping? && HoldoutAccepted(m.holdoutAccess.m, table, ctx) && LabelsAccepted(labels, ctx)
    requires table.Keys == ctx.cases.Keys && ctx.mode == Internal && m.releaseStatus == Mapping(TRUTHFUL)
    requires ctx.attestations.Keys == {"a"} && ctx.attestations["a"].independent == Bool(false)
    ensures EvidenceAccepted(m, table, labels, ctx)
  {
  }

  // Without its labels, the same manifest makes the validator fail: the lawful
  // access looks up a label that is not there.
  lemma UnlabelledManifestCrashes()
    ensures Crashes(ManifestOf([]), SelectionOf(20), SuiteOf(), Plain())
  {
    HeaderHolds([]);
    SelectionHolds();
    AttestationsHold([]);
    assert Labels(0) == [];
    LabelsListed([], 0);
    ContextIs([]);
    LookupFails(ContextFor([]), 20, [Mapping(Access())], map[]);
  }

  lemma LookupFails(ctx: Context, n: nat, events: seq<Found<AccessEvent>>, labels: map<string, LabelRecord>)
    requires Setting(ctx, n) && n > 0 && events == [Mapping(Access())] && labels == map[]
    ensures LogCrashes(events, labels, ctx)
  {
    AccessIsLawful(ctx, n);
    OneEvent(events);
    AccessFails(ctx, n, labels);
    assert LogCrashesAt(events, 0, labels, ctx);
  }

  lemma AccessFails(ctx: Context, n: nat, labels: map<string, LabelRecord>)
    requires Setting(ctx, n) && n > 0 && labels == map[] && LawfulAccess(Access(), ctx)
    ensures EventCrashes(Access(), labels, ctx)
  {
    PurposesDiffer();
    FirstCaseIsHeldOut(n);
    PurposeExactly(Access().purpose);
    assert CrashesAt(Access(), 0, labels, ctx);
  }
}
