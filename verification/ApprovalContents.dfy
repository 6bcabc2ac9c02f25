// What the approvals table takes, and what a creation and a grant answer,
// written out field by field.
module ApprovalContents {
  import opened Basics
  import opened Approvals

  // The codec reads back the plan that it wrote.
  predicate ReadsBack(contract: Contract, plan: Plan) {
    contract.decode(contract.encode(plan)) == Some(plan)
  }

  predicate SomethingWritten(s: string) {
    exists i :: 0 <= i < |s| && s[i] != ' '
  }

  // What the table and its keys ask of a new approval, and the reader of it:
  // a project, a hash of 64 characters, texts, one of the two sources, and no
  // other approval of the same plan in the project.
  predicate Admissible(rows: Rows, projects: set<nat>, id: nat, c: Creation, contract: Contract) {
    && c.projectId in projects && id !in rows
    && |c.plan.hash| == 64 && SomethingWritten(contract.encode(c.plan)) && SomethingWritten(c.approverId)
    && (c.source == "cognito" || c.source == "local_bypass")
    && forall other :: other in rows && rows[other].projectId == c.projectId ==>
         rows[other].planId != c.plan.id && rows[other].planHash != c.plan.hash
  }

  // The approval of a creation: its own project, plan, approver, source and
  // comment, valid for ten minutes, and unused.
  predicate ApprovalFor(a: Approval, id: nat, c: Creation, now: int) {
    && a.id == id && a.projectId == c.projectId && a.plan == c.plan && a.approverId == c.approverId
    && a.source == c.source && a.comment == c.comment
    && a.approvedAt == now && a.expiresAt == now + 600_000_000 && a.consumedAt == None
  }

  predicate RowFor(r: Row, c: Creation, contract: Contract, now: int) {
    && r.projectId == c.projectId && r.planId == c.plan.id && r.planHash == c.plan.hash
    && r.snapshot == contract.encode(c.plan) && r.approverId == c.approverId && r.source == c.source && r.comment == c.comment
    && r.approvedAt == now && r.expiresAt == now + 600_000_000 && r.consumedAt == None
  }

  // A creation is filed exactly when it is admissible, and else is a conflict;
  // what is filed is answered unless the approver is blank to Python.
  lemma CreationExactly(rows: Rows, projects: set<nat>, id: nat, c: Creation, contract: Contract, now: int)
    requires ReadsBack(contract, c.plan)
    ensures var (after, r) := CreateRow(rows, projects, id, c, contract, now);
            && (r == Err(Conflict) <==> !Admissible(rows, projects, id, c, contract))
            && (r == Err(Conflict) ==> after == rows)
            && (Admissible(rows, projects, id, c, contract) ==>
                  && after.Keys == rows.Keys + {id} && RowFor(after[id], c, contract, now)
                  && forall other :: other in rows ==> after[other] == rows[other])
            && (r.Ok? <==> Admissible(rows, projects, id, c, contract) && !contract.blank(c.approverId))
            && (r.Ok? ==> ApprovalFor(r.value, id, c, now))
  {
    assert SqlBlank(c.approverId) <==> !SomethingWritten(c.approverId);
    assert SqlBlank(contract.encode(c.plan)) <==> !SomethingWritten(contract.encode(c.plan));
  }

  // Later reading answers the same approval, whatever became of its use.
  lemma ReadingExactly(id: nat, r: Row, c: Creation, contract: Contract, now: int, consumedAt: Option<int>)
    requires ReadsBack(contract, c.plan) && RowFor(r, c, contract, now) && !contract.blank(c.approverId)
    requires consumedAt.Some? ==> now <= consumedAt.value
    ensures var read := ApprovalOf(id, r.(consumedAt := consumedAt), contract);
            read.Ok? && read.value.consumedAt == consumedAt && ApprovalFor(read.value.(consumedAt := None), id, c, now)
  {
  }

  // The claim that names the plan of a creation is granted that very approval,
  // with the time of its use, within ten minutes of the creation.
  lemma GrantExactly(rows: Rows, projects: set<nat>, id: nat, c: Creation, contract: Contract, now: int, later: int)
    requires ReadsBack(contract, c.plan) && Constrained(rows, projects) && Admissible(rows, projects, id, c, contract)
    requires !contract.blank(c.approverId)
    ensures var created := CreateRow(rows, projects, id, c, contract, now).0;
            var (after, r) := ConsumeRow(created, Claim(c.projectId, c.plan.id, c.plan.hash), contract, later);
            && (now <= later < now + 600_000_000 ==>
                  && r.Ok? && r.value.Some? && r.value.value.consumedAt == Some(later)
                  && ApprovalFor(r.value.value.(consumedAt := None), id, c, now)
                  && after == created[id := created[id].(consumedAt := Some(later))])
            && (later >= now + 600_000_000 ==> r == Ok(None) && after == created)
            && (later < now ==> r == Err(Unavailable) && after == created)
  {
    var claim := Claim(c.projectId, c.plan.id, c.plan.hash);
    CreationExactly(rows, projects, id, c, contract, now);
    var created := CreateRow(rows, projects, id, c, contract, now).0;
    CreateKeepsConstraints(rows, projects, id, c, contract, now);
    FoundIsTheRow(created, projects, claim, id);
    ReadingExactly(id, created[id], c, contract, now, None);
    assert created[id].(consumedAt := None) == created[id];
  }

  // A claim that matches no row is granted nothing, and not refused either.
  lemma UnmatchedClaim(rows: Rows, c: Claim, contract: Contract, now: int)
    requires forall id :: id in rows ==>
               rows[id].projectId != c.projectId || rows[id].planId != c.planId || rows[id].planHash != c.planHash
    ensures ConsumeRow(rows, c, contract, now) == (rows, Ok(None))
  {
  }

  // A row that does not read back as the plan it names, or names nobody, or
  // whose times are out of order, is never answered.
  lemma IntactExactly(id: nat, r: Row, contract: Contract)
    ensures ApprovalOf(id, r, contract).Ok? <==>
            && contract.decode(r.snapshot).Some?
            && contract.decode(r.snapshot).value.id == r.planId && contract.decode(r.snapshot).value.hash == r.planHash
            && !contract.blank(r.approverId) && r.approvedAt < r.expiresAt
            && (r.consumedAt.Some? ==> r.approvedAt <= r.consumedAt.value)
    ensures ApprovalOf(id, r, contract).Ok? ==>
              ApprovalOf(id, r, contract).value
              == Approval(id, r.projectId, contract.decode(r.snapshot).value, r.approverId, r.source, r.comment,
                          r.approvedAt, r.expiresAt, r.consumedAt)
    ensures ApprovalOf(id, r, contract).Err? ==> ApprovalOf(id, r, contract) == Err(Unavailable)
  {
  }

  // ---- Every table ----

  // A row as the table declares it.
  predicate Declared(r: Row, projects: set<nat>) {
    && r.projectId in projects && |r.planHash| == 64 && SomethingWritten(r.snapshot) && SomethingWritten(r.approverId)
    && (r.source == "cognito" || r.source == "local_bypass")
    && r.approvedAt < r.expiresAt && (r.consumedAt.Some? ==> r.approvedAt <= r.consumedAt.value)
  }

  // Whatever the interleaving, every row is as declared, and no two approvals
  // of a project are of one plan, by identifier or by hash.
  lemma TablesStayDeclared(s: System, steps: seq<Step>, projects: set<nat>, contract: Contract, a: nat, b: nat)
    requires Start(s)
    ensures var rows := Execute(s, steps, projects, contract).rows;
            && (a in rows ==> Declared(rows[a], projects))
            && (a in rows && b in rows && a != b && rows[a].projectId == rows[b].projectId ==>
                  rows[a].planId != rows[b].planId && rows[a].planHash != rows[b].planHash)
  {
    EveryRunKeepsInv(s, steps, projects, contract);
    var rows := Execute(s, steps, projects, contract).rows;
    if a in rows {
      assert SqlBlank(rows[a].snapshot) <==> !SomethingWritten(rows[a].snapshot);
      assert SqlBlank(rows[a].approverId) <==> !SomethingWritten(rows[a].approverId);
    }
    if a in rows && b in rows && a != b {
      assert !Clash(rows[a], rows[b]);
    }
  }

  // ---- Grants to any number of workers ----

  // The approval is what its row says, its use aside.
  predicate Answers(rows: Rows, a: Approval, contract: Contract) {
    a.id in rows && ApprovalOf(a.id, rows[a.id].(consumedAt := None), contract) == Ok(a.(consumedAt := None))
  }

  predicate WorkerAnswers(rows: Rows, w: Worker, contract: Contract) {
    && (w.stage.Holding? ==> Answers(rows, w.stage.approval, contract))
    && (Won(w) ==> Answers(rows, Prize(w), contract))
  }

  ghost predicate AllAnswer(s: System, contract: Contract) {
    forall w :: 0 <= w < |s.workers| ==> WorkerAnswers(s.rows, s.workers[w], contract)
  }

  lemma AnswersStay(before: Rows, after: Rows, w: Worker, contract: Contract)
    requires Preserved(before, after) && WorkerAnswers(before, w, contract)
    ensures WorkerAnswers(after, w, contract)
  {
  }

  lemma StepAnswers(s: System, step: Step, projects: set<nat>, contract: Contract)
    requires AllAnswer(s, contract)
    ensures AllAnswer(Apply(s, step, projects, contract), contract)
  {
    var after := Apply(s, step, projects, contract);
    StepPreserves(s, step, projects, contract);
    forall w | 0 <= w < |after.workers| ensures WorkerAnswers(after.rows, after.workers[w], contract) {
      AnswersStay(s.rows, after.rows, s.workers[w], contract);
    }
  }

  // Whatever the interleaving, a granted approval is the one its row holds:
  // plan, approver, source, comment and times.
  lemma {:induction false} GrantsAnswerTheirRows(s: System, steps: seq<Step>, projects: set<nat>, contract: Contract)
    requires Start(s)
    ensures AllAnswer(Execute(s, steps, projects, contract), contract)
  {
    if steps != [] {
      GrantsAnswerTheirRows(s, steps[..|steps| - 1], projects, contract);
      StepAnswers(Execute(s, steps[..|steps| - 1], projects, contract), steps[|steps| - 1], projects, contract);
    }
  }
}
