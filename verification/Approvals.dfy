// One-time approvals: a table with uniqueness and CHECK constraints, and the
// protocol by which any number of workers read, check and claim an approval.
module Approvals {
  import opened Basics

  // Identifiers are opaque; times are instants in microseconds.
  datatype Plan = Plan(id: nat, hash: string, content: string)

  datatype Row = Row(
    projectId: nat, planId: nat, planHash: string, snapshot: string, approverId: string, source: string,
    comment: Option<string>, approvedAt: int, expiresAt: int, consumedAt: Option<int>)

  type Rows = map<nat, Row>

  datatype Approval = Approval(
    id: nat, projectId: nat, plan: Plan, approverId: string, source: string, comment: Option<string>,
    approvedAt: int, expiresAt: int, consumedAt: Option<int>)

  datatype Failure = Conflict | Unavailable

  // The snapshot codec, which validates the plan it decodes, and the test
  // whether str.strip() leaves nothing.
  datatype Contract = Contract(encode: Plan -> string, decode: string -> Option<Plan>, blank: string -> bool)

  datatype Creation = Creation(projectId: nat, plan: Plan, approverId: string, source: string, comment: Option<string>)

  datatype Claim = Claim(projectId: nat, planId: nat, planHash: string)

  const TTL := 600_000_000

  // ---- The table ----

  // SQL trim() removes spaces only.
  predicate SqlBlank(s: string) {
    forall i :: 0 <= i < |s| ==> s[i] == ' '
  }

  predicate Checks(r: Row) {
    && |r.planHash| == 64 && !SqlBlank(r.snapshot) && !SqlBlank(r.approverId)
    && (r.source == "cognito" || r.source == "local_bypass")
    && r.expiresAt > r.approvedAt && (r.consumedAt.Some? ==> r.consumedAt.value >= r.approvedAt)
  }

  predicate Clash(a: Row, b: Row) {
    a.projectId == b.projectId && (a.planId == b.planId || a.planHash == b.planHash)
  }

  // The declared constraints: checks, the project reference, and one approval
  // per project and plan identifier and per project and plan hash.
  ghost predicate Constrained(rows: Rows, projects: set<nat>) {
    && (forall id :: id in rows ==> Checks(rows[id]) && rows[id].projectId in projects)
    && (forall a, b :: a in rows && b in rows && a != b ==> !Clash(rows[a], rows[b]))
  }

  predicate Insertable(rows: Rows, projects: set<nat>, id: nat, r: Row) {
    id !in rows && Checks(r) && r.projectId in projects && forall other :: other in rows ==> !Clash(rows[other], r)
  }

  predicate Matches(r: Row, c: Claim) {
    r.projectId == c.projectId && r.planId == c.planId && r.planHash == c.planHash
  }

  ghost function Find(rows: Rows, c: Claim): Option<nat> {
    if exists id :: id in rows && Matches(rows[id], c) then
      var id :| id in rows && Matches(rows[id], c); Some(id)
    else None
  }

  function ApprovalOf(id: nat, r: Row, contract: Contract): Result<Approval, Failure> {
    match contract.decode(r.snapshot)
    case None => Err(Unavailable)
    case Some(plan) =>
      if r.planId != plan.id || r.planHash != plan.hash then Err(Unavailable)
      else if contract.blank(r.approverId) || r.expiresAt <= r.approvedAt
           || (r.consumedAt.Some? && r.consumedAt.value < r.approvedAt)
      then Err(Unavailable)
      else Ok(Approval(id, r.projectId, plan, r.approverId, r.source, r.comment, r.approvedAt, r.expiresAt, r.consumedAt))
  }

  // ---- Creating and consuming, as transactions ----

  function NewRow(c: Creation, contract: Contract, now: int): Row {
    Row(c.projectId, c.plan.id, c.plan.hash, contract.encode(c.plan), c.approverId, c.source, c.comment,
        now, now + TTL, None)
  }

  function CreateRow(rows: Rows, projects: set<nat>, id: nat, c: Creation, contract: Contract, now: int)
    : (Rows, Result<Approval, Failure>)
  {
    var r := NewRow(c, contract, now);
    if !Insertable(rows, projects, id, r) then (rows, Err(Conflict))
    else (rows[id := r], ApprovalOf(id, r, contract))
  }

  // The conditional update, which the CHECK constraint can still refuse.
  function ClaimRow(rows: Rows, a: Approval, now: int): (Rows, Result<Option<Approval>, Failure>) {
    if a.id !in rows || rows[a.id].consumedAt.Some? || rows[a.id].expiresAt <= now then (rows, Ok(None))
    else if now < rows[a.id].approvedAt then (rows, Err(Unavailable))
    else (rows[a.id := rows[a.id].(consumedAt := Some(now))], Ok(Some(a.(consumedAt := Some(now)))))
  }

  // What a worker makes of the row it selected: give up, or go on to claim.
  datatype Reading = GiveUp(result: Result<Option<Approval>, Failure>) | GoOn(approval: Approval)

  ghost function ReadRow(rows: Rows, c: Claim, contract: Contract, now: int): Reading {
    match Find(rows, c)
    case None => GiveUp(Ok(None))
    case Some(id) => Judge(ApprovalOf(id, rows[id], contract), now)
  }

  function Judge(a: Result<Approval, Failure>, now: int): Reading {
    if a.Err? then GiveUp(Err(a.error))
    else if a.value.consumedAt.Some? || a.value.expiresAt <= now then GiveUp(Ok(None))
    else GoOn(a.value)
  }

  ghost function ConsumeRow(rows: Rows, c: Claim, contract: Contract, now: int): (Rows, Result<Option<Approval>, Failure>) {
    match ReadRow(rows, c, contract, now)
    case GiveUp(r) => (rows, r)
    case GoOn(a) => ClaimRow(rows, a, now)
  }

  class ApprovalRepository {
    var rows: Rows
    const projects: set<nat>
    const contract: Contract

    ghost predicate Valid()
      reads this
    {
      Constrained(rows, projects)
    }

    constructor (projects: set<nat>, contract: Contract)
      ensures Valid() && rows == map[] && this.projects == projects && this.contract == contract
    {
      this.rows, this.projects, this.contract := map[], projects, contract;
    }

    method Create(id: nat, c: Creation, now: int) returns (r: Result<Approval, Failure>)
      requires Valid()
      modifies this`rows
      ensures Valid()
      ensures (rows, r) == CreateRow(old(rows), projects, id, c, contract, now)
    {
      var row := NewRow(c, contract, now);
      if !Insertable(rows, projects, id, row) { return Err(Conflict); }
      rows := rows[id := row];
      r := ApprovalOf(id, row, contract);
    }

    method Get(projectId: nat, id: nat) returns (r: Result<Option<Approval>, Failure>)
      ensures r == if id in rows && rows[id].projectId == projectId
                   then (match ApprovalOf(id, rows[id], contract) case Ok(a) => Ok(Some(a)) case Err(e) => Err(e))
                   else Ok(None)
    {
      if id !in rows || rows[id].projectId != projectId { return Ok(None); }
      var a := ApprovalOf(id, rows[id], contract);
      if a.Err? { return Err(a.error); }
      return Ok(Some(a.value));
    }

    method Select(c: Claim) returns (found: Option<nat>)
      requires Valid()
      ensures found == Find(rows, c)
    {
      if id :| id in rows && Matches(rows[id], c) {
        found := Some(id);
      } else {
        found := None;
      }
    }

    method Consume(c: Claim, now: int) returns (r: Result<Option<Approval>, Failure>)
      requires Valid()
      modifies this`rows
      ensures Valid()
      ensures (rows, r) == ConsumeRow(old(rows), c, contract, now)
    {
      var found := Select(c);
      if found.None? { return Ok(None); }
      var a := ApprovalOf(found.value, rows[found.value], contract);
      if a.Err? { return Err(a.error); }
      if a.value.consumedAt.Some? || a.value.expiresAt <= now { return Ok(None); }
      var row := rows[a.value.id];
      if row.consumedAt.Some? || row.expiresAt <= now { return Ok(None); }
      if now < row.approvedAt { return Err(Unavailable); }
      rows := rows[a.value.id := row.(consumedAt := Some(now))];
      return Ok(Some(a.value.(consumedAt := Some(now))));
    }
  }

  // ---- The sequential protocol ----

  // An approval is granted exactly when there is one that matches, is intact,
  // unused and unexpired at a time not before its approval.
  lemma ConsumesExactlyTheValid(rows: Rows, projects: set<nat>, c: Claim, contract: Contract, now: int, id: nat)
    requires Constrained(rows, projects) && id in rows && Matches(rows[id], c)
    ensures var (after, r) := ConsumeRow(rows, c, contract, now);
            && (r.Ok? && r.value.Some? <==>
                  ApprovalOf(id, rows[id], contract).Ok? && rows[id].consumedAt.None?
                  && rows[id].approvedAt <= now < rows[id].expiresAt)
            && (r.Ok? && r.value.Some? ==>
                  after == rows[id := rows[id].(consumedAt := Some(now))] && r.value.value.id == id)
            && (!(r.Ok? && r.value.Some?) ==> after == rows)
  {
  }

  // Which constraint fails decides nothing for `create`: it reports a conflict
  // exactly when the row cannot be inserted.
  lemma CreateConflictsExactly(rows: Rows, projects: set<nat>, id: nat, c: Creation, contract: Contract, now: int)
    ensures var (after, r) := CreateRow(rows, projects, id, c, contract, now);
            && (r == Err(Conflict) <==> !Insertable(rows, projects, id, NewRow(c, contract, now)))
            && (r == Err(Conflict) ==> after == rows)
            && (r == Err(Unavailable) ==> id in after)
  {
  }

  // `consume` never reports a conflict: it is unavailable exactly when the row
  // is not intact, or when it is unused and the clock is before its approval,
  // which only the CHECK constraint notices.
  lemma ConsumeIsUnavailableExactly(rows: Rows, projects: set<nat>, c: Claim, contract: Contract, now: int, id: nat)
    requires Constrained(rows, projects) && id in rows && Matches(rows[id], c)
    ensures var r := ConsumeRow(rows, c, contract, now).1;
            && r != Err(Conflict)
            && (r == Err(Unavailable) <==>
                  ApprovalOf(id, rows[id], contract).Err?
                  || (rows[id].consumedAt.None? && now < rows[id].approvedAt))
  {
    FoundIsTheRow(rows, projects, c, id);
  }

  lemma FoundIsTheRow(rows: Rows, projects: set<nat>, c: Claim, id: nat)
    requires Constrained(rows, projects) && id in rows && Matches(rows[id], c)
    ensures Find(rows, c) == Some(id)
  {
    var found := Find(rows, c).value;
    assert found != id ==> Clash(rows[found], rows[id]);
  }

  // Once consumed, always refused.
  lemma ConsumedIsRefused(rows: Rows, projects: set<nat>, c: Claim, contract: Contract, now: int, id: nat)
    requires Constrained(rows, projects) && id in rows && Matches(rows[id], c) && rows[id].consumedAt.Some?
    requires ApprovalOf(id, rows[id], contract).Ok?
    ensures ConsumeRow(rows, c, contract, now) == (rows, Ok(None))
  {
    ConsumesExactlyTheValid(rows, projects, c, contract, now, id);
  }

  lemma ConsumedStaysIntact(id: nat, r: Row, contract: Contract, now: int)
    requires ApprovalOf(id, r, contract).Ok? && r.approvedAt <= now
    ensures ApprovalOf(id, r.(consumedAt := Some(now)), contract).Ok?
  {
  }

  // A created approval can be consumed once, by the claim that names its plan,
  // strictly before ten minutes have passed, and never again.
  lemma CreatedThenConsumedOnce(rows: Rows, projects: set<nat>, id: nat, c: Creation, contract: Contract,
                                now: int, later: int, again: int)
    requires Constrained(rows, projects) && CreateRow(rows, projects, id, c, contract, now).1.Ok?
    ensures var claim := Claim(c.projectId, c.plan.id, c.plan.hash);
            var created := CreateRow(rows, projects, id, c, contract, now).0;
            var (consumed, r) := ConsumeRow(created, claim, contract, later);
            && (r.Ok? && r.value.Some? <==> now <= later < now + TTL)
            && (r.Ok? && r.value.Some? ==> ConsumeRow(consumed, claim, contract, again) == (consumed, Ok(None)))
  {
    var claim := Claim(c.projectId, c.plan.id, c.plan.hash);
    var created := CreateRow(rows, projects, id, c, contract, now).0;
    var row := NewRow(c, contract, now);
    CreateKeepsConstraints(rows, projects, id, c, contract, now);
    assert created[id] == row;
    ConsumesExactlyTheValid(created, projects, claim, contract, later, id);
    if now <= later < now + TTL {
      ConsumedStaysIntact(id, row, contract, later);
      ClaimKeepsConstraints(created, projects, ApprovalOf(id, row, contract).value, later);
      ConsumedIsRefused(created[id := row.(consumedAt := Some(later))], projects, claim, contract, again, id);
    }
  }

  // ---- Any number of workers, interleaved ----

  datatype Stage = Waiting | Timed(now: int) | Holding(now: int, approval: Approval)
                 | Finished(result: Result<Option<Approval>, Failure>)

  datatype Worker = Worker(claim: Claim, stage: Stage)

  datatype System = System(rows: Rows, workers: seq<Worker>)

  // Clocks are arbitrary; creations may happen at any moment.
  datatype Step =
    | Insert(id: nat, creation: Creation, at: int)
    | ReadClock(worker: nat, now: int)
    | Select(worker: nat)
    | Update(worker: nat)

  function MoveTo(s: System, w: nat, stage: Stage): System
    requires w < |s.workers|
  {
    s.(workers := s.workers[w := s.workers[w].(stage := stage)])
  }

  ghost function Apply(s: System, step: Step, projects: set<nat>, contract: Contract): System {
    match step
    case Insert(id, creation, at) => s.(rows := CreateRow(s.rows, projects, id, creation, contract, at).0)
    case ReadClock(w, now) =>
      if w < |s.workers| && s.workers[w].stage.Waiting? then MoveTo(s, w, Timed(now)) else s
    case Select(w) =>
      if w < |s.workers| && s.workers[w].stage.Timed? then
        var now := s.workers[w].stage.now;
        match ReadRow(s.rows, s.workers[w].claim, contract, now)
        case GiveUp(r) => MoveTo(s, w, Finished(r))
        case GoOn(a) => MoveTo(s, w, Holding(now, a))
      else s
    case Update(w) =>
      if w < |s.workers| && s.workers[w].stage.Holding? then
        var stage := s.workers[w].stage;
        var (rows, r) := ClaimRow(s.rows, stage.approval, stage.now);
        MoveTo(s.(rows := rows), w, Finished(r))
      else s
  }

  ghost function Execute(s: System, steps: seq<Step>, projects: set<nat>, contract: Contract): System {
    if steps == [] then s
    else Apply(Execute(s, steps[..|steps| - 1], projects, contract), steps[|steps| - 1], projects, contract)
  }

  predicate Start(s: System) {
    s.rows == map[] && forall w :: 0 <= w < |s.workers| ==> s.workers[w].stage == Waiting
  }

  predicate Won(w: Worker) {
    w.stage.Finished? && w.stage.result.Ok? && w.stage.result.value.Some?
  }

  function Prize(w: Worker): Approval
    requires Won(w)
  {
    w.stage.result.value.value
  }

  // A held approval is about a row that is still there, unchanged but for its
  // consumption; a granted one is about a row consumed by that very grant.
  ghost predicate WorkerOk(rows: Rows, w: Worker) {
    && (w.stage.Holding? ==>
          var a := w.stage.approval;
          a.id in rows && Matches(rows[a.id], w.claim) && a.expiresAt == rows[a.id].expiresAt
          && w.stage.now < a.expiresAt)
    && (Won(w) ==>
          var a := Prize(w);
          a.id in rows && Matches(rows[a.id], w.claim) && a.consumedAt.Some? && rows[a.id].consumedAt == a.consumedAt
          && rows[a.id].approvedAt <= a.consumedAt.value < rows[a.id].expiresAt)
  }

  ghost predicate Inv(s: System, projects: set<nat>) {
    && Constrained(s.rows, projects)
    && (forall w :: 0 <= w < |s.workers| ==> WorkerOk(s.rows, s.workers[w]))
    && (forall v, w :: 0 <= v < w < |s.workers| && Won(s.workers[v]) && Won(s.workers[w]) ==>
          Prize(s.workers[v]).id != Prize(s.workers[w]).id)
    && (forall id :: id in s.rows && s.rows[id].consumedAt.Some? ==> Granted(s, id))
  }

  // Every consumed row was granted to one of the workers.
  ghost predicate Granted(s: System, id: nat) {
    exists w :: 0 <= w < |s.workers| && Won(s.workers[w]) && Prize(s.workers[w]).id == id
  }

  // Rows are never removed or edited; consumption is set once and stays.
  predicate OnlyConsumed(before: Row, after: Row) {
    after == before || (before.consumedAt.None? && after.consumedAt.Some? && after == before.(consumedAt := after.consumedAt))
  }

  ghost predicate Preserved(before: Rows, after: Rows) {
    forall id :: id in before ==> id in after && OnlyConsumed(before[id], after[id])
  }

  lemma CreateKeepsConstraints(rows: Rows, projects: set<nat>, id: nat, c: Creation, contract: Contract, now: int)
    requires Constrained(rows, projects)
    ensures Constrained(CreateRow(rows, projects, id, c, contract, now).0, projects)
    ensures Preserved(rows, CreateRow(rows, projects, id, c, contract, now).0)
  {
  }

  lemma ClaimKeepsConstraints(rows: Rows, projects: set<nat>, a: Approval, now: int)
    requires Constrained(rows, projects)
    ensures Constrained(ClaimRow(rows, a, now).0, projects)
    ensures Preserved(rows, ClaimRow(rows, a, now).0)
  {
  }

  lemma WorkersStayOk(s: System, rows: Rows)
    requires forall w :: 0 <= w < |s.workers| ==> WorkerOk(s.rows, s.workers[w])
    requires Preserved(s.rows, rows)
    ensures forall w :: 0 <= w < |s.workers| ==> WorkerOk(rows, s.workers[w])
  {
    forall w | 0 <= w < |s.workers| ensures WorkerOk(rows, s.workers[w]) {
      assert WorkerOk(s.rows, s.workers[w]);
    }
  }

  lemma UpdateKeepsInv(s: System, w: nat, projects: set<nat>, contract: Contract)
    requires Inv(s, projects) && w < |s.workers| && s.workers[w].stage.Holding?
    ensures Inv(Apply(s, Update(w), projects, contract), projects)
  {
    var stage := s.workers[w].stage;
    var (rows, r) := ClaimRow(s.rows, stage.approval, stage.now);
    ClaimKeepsConstraints(s.rows, projects, stage.approval, stage.now);
    WorkersStayOk(s, rows);
    assert WorkerOk(s.rows, s.workers[w]);
    forall v | 0 <= v < |s.workers| && v != w && Won(s.workers[v]) && r.Ok? && r.value.Some?
      ensures Prize(s.workers[v]).id != stage.approval.id
    {
      assert WorkerOk(s.rows, s.workers[v]);
    }
    var after := Apply(s, Update(w), projects, contract);
    forall id | id in rows && rows[id].consumedAt.Some? ensures Granted(after, id) {
      if s.rows[id].consumedAt.Some? {
        GrantStays(s, after, w, id);
      } else {
        assert Won(after.workers[w]) && Prize(after.workers[w]).id == id;
      }
    }
  }

  lemma GrantStays(s: System, after: System, w: nat, id: nat)
    requires Granted(s, id) && w < |s.workers| == |after.workers| && !s.workers[w].stage.Finished?
    requires forall v :: 0 <= v < |s.workers| && v != w ==> after.workers[v] == s.workers[v]
    ensures Granted(after, id)
  {
    var v :| 0 <= v < |s.workers| && Won(s.workers[v]) && Prize(s.workers[v]).id == id;
    assert after.workers[v] == s.workers[v];
  }

  // A worker moves on without being granted anything.
  lemma MoveKeepsInv(s: System, w: nat, stage: Stage, projects: set<nat>)
    requires Inv(s, projects) && w < |s.workers| && !s.workers[w].stage.Finished?
    requires WorkerOk(s.rows, s.workers[w].(stage := stage)) && !Won(s.workers[w].(stage := stage))
    ensures Inv(MoveTo(s, w, stage), projects)
  {
    forall id | id in s.rows && s.rows[id].consumedAt.Some? ensures Granted(MoveTo(s, w, stage), id) {
      GrantStays(s, MoveTo(s, w, stage), w, id);
    }
  }

  lemma InsertKeepsInv(s: System, rows: Rows, projects: set<nat>)
    requires Inv(s, projects) && Constrained(rows, projects) && Preserved(s.rows, rows)
    requires forall id :: id in rows && rows[id].consumedAt.Some? ==> id in s.rows && s.rows[id].consumedAt.Some?
    ensures Inv(s.(rows := rows), projects)
  {
    WorkersStayOk(s, rows);
    forall id | id in rows && rows[id].consumedAt.Some? ensures Granted(s.(rows := rows), id) {
      var w :| 0 <= w < |s.workers| && Won(s.workers[w]) && Prize(s.workers[w]).id == id;
      assert s.(rows := rows).workers[w] == s.workers[w];
    }
  }

  lemma StepKeepsInv(s: System, step: Step, projects: set<nat>, contract: Contract)
    requires Inv(s, projects)
    ensures Inv(Apply(s, step, projects, contract), projects)
  {
    match step
    case Insert(id, creation, at) =>
      CreateKeepsConstraints(s.rows, projects, id, creation, contract, at);
      InsertKeepsInv(s, CreateRow(s.rows, projects, id, creation, contract, at).0, projects);
    case ReadClock(w, now) =>
      if w < |s.workers| && s.workers[w].stage.Waiting? { MoveKeepsInv(s, w, Timed(now), projects); }
    case Select(w) =>
      if w < |s.workers| && s.workers[w].stage.Timed? {
        MoveKeepsInv(s, w, Apply(s, step, projects, contract).workers[w].stage, projects);
      }
    case Update(w) =>
      if w < |s.workers| && s.workers[w].stage.Holding? { UpdateKeepsInv(s, w, projects, contract); }
  }

  lemma {:induction false} EveryRunKeepsInv(s: System, steps: seq<Step>, projects: set<nat>, contract: Contract)
    requires Inv(s, projects)
    ensures Inv(Execute(s, steps, projects, contract), projects)
  {
    if steps != [] {
      EveryRunKeepsInv(s, steps[..|steps| - 1], projects, contract);
      StepKeepsInv(Execute(s, steps[..|steps| - 1], projects, contract), steps[|steps| - 1], projects, contract);
    }
  }

  lemma {:induction false} ClaimsAreFixed(s: System, steps: seq<Step>, projects: set<nat>, contract: Contract, w: nat)
    requires w < |s.workers|
    ensures |Execute(s, steps, projects, contract).workers| == |s.workers|
    ensures Execute(s, steps, projects, contract).workers[w].claim == s.workers[w].claim
  {
    if steps != [] {
      ClaimsAreFixed(s, steps[..|steps| - 1], projects, contract, w);
    }
  }

  // Whatever the interleaving, at most one worker is ever granted an approval
  // for a plan identifier, or for a plan hash, of a project.
  lemma ApprovalsAreUsedOnce(s: System, steps: seq<Step>, projects: set<nat>, contract: Contract, v: nat, w: nat)
    requires Start(s) && v < |s.workers| && w < |s.workers| && v != w
    requires var (a, b) := (s.workers[v].claim, s.workers[w].claim);
             a.projectId == b.projectId && (a.planId == b.planId || a.planHash == b.planHash)
    ensures |Execute(s, steps, projects, contract).workers| == |s.workers|
    ensures !(Won(Execute(s, steps, projects, contract).workers[v]) && Won(Execute(s, steps, projects, contract).workers[w]))
  {
    EveryRunKeepsInv(s, steps, projects, contract);
    ClaimsAreFixed(s, steps, projects, contract, v);
    ClaimsAreFixed(s, steps, projects, contract, w);
    WinnersDiffer(Execute(s, steps, projects, contract), projects, v, w);
  }

  lemma WinnersDiffer(s: System, projects: set<nat>, v: nat, w: nat)
    requires Inv(s, projects) && v < |s.workers| && w < |s.workers| && v != w
    ensures var (a, b) := (s.workers[v].claim, s.workers[w].claim);
            Won(s.workers[v]) && Won(s.workers[w]) && a.projectId == b.projectId ==>
              a.planId != b.planId && a.planHash != b.planHash
  {
    assert WorkerOk(s.rows, s.workers[v]) && WorkerOk(s.rows, s.workers[w]);
    if Won(s.workers[v]) && Won(s.workers[w]) {
      var (i, j) := (Prize(s.workers[v]).id, Prize(s.workers[w]).id);
      assert i != j && !Clash(s.rows[i], s.rows[j]);
    }
  }

  // A grant names the time of its consumption, which the row also holds and
  // which lies at or after approval and strictly before expiry.
  lemma GrantsAreTimely(s: System, steps: seq<Step>, projects: set<nat>, contract: Contract, w: nat)
    requires Start(s) && w < |s.workers|
    ensures var end := Execute(s, steps, projects, contract);
            && |end.workers| == |s.workers|
            && (Won(end.workers[w]) ==>
                  var a := Prize(end.workers[w]);
                  && a.id in end.rows && Matches(end.rows[a.id], s.workers[w].claim)
                  && a.consumedAt.Some? && end.rows[a.id].consumedAt == a.consumedAt
                  && end.rows[a.id].approvedAt <= a.consumedAt.value < end.rows[a.id].expiresAt)
  {
    EveryRunKeepsInv(s, steps, projects, contract);
    ClaimsAreFixed(s, steps, projects, contract, w);
    assert WorkerOk(Execute(s, steps, projects, contract).rows, Execute(s, steps, projects, contract).workers[w]);
  }

  lemma PreservedTransitive(a: Rows, b: Rows, c: Rows)
    requires Preserved(a, b) && Preserved(b, c)
    ensures Preserved(a, c)
  {
  }

  lemma StepPreserves(s: System, step: Step, projects: set<nat>, contract: Contract)
    ensures Preserved(s.rows, Apply(s, step, projects, contract).rows)
  {
  }

  // Rows are never removed or edited, and once a row is consumed its time of
  // consumption stays as it is, from any moment of a run to any later one.
  lemma {:induction false} ConsumptionIsFinal(s: System, steps: seq<Step>, n: nat, projects: set<nat>, contract: Contract)
    requires n <= |steps|
    ensures Preserved(Execute(s, steps[..n], projects, contract).rows, Execute(s, steps, projects, contract).rows)
  {
    if n < |steps| {
      var m := |steps| - 1;
      var (earlier, before) := (Execute(s, steps[..n], projects, contract), Execute(s, steps[..m], projects, contract));
      assert steps[..m][..n] == steps[..n];
      ConsumptionIsFinal(s, steps[..m], n, projects, contract);
      StepPreserves(before, steps[m], projects, contract);
      PreservedTransitive(earlier.rows, before.rows, Apply(before, steps[m], projects, contract).rows);
    } else {
      assert steps[..n] == steps;
    }
  }

  // Nothing is lost in a race: a worker that held a valid approval is refused
  // it only if the approval was granted to another worker meanwhile, or if the
  // worker's clock lies before the approval.
  lemma LosingMeansAnotherWon(s: System, w: nat, projects: set<nat>, contract: Contract)
    requires Inv(s, projects) && w < |s.workers| && s.workers[w].stage.Holding?
    ensures var (a, now) := (s.workers[w].stage.approval, s.workers[w].stage.now);
            var end := Apply(s, Update(w), projects, contract);
            && (Won(end.workers[w]) <==> !Granted(s, a.id) && s.rows[a.id].approvedAt <= now)
            && (end.workers[w].stage == Finished(Ok(None)) <==> Granted(s, a.id))
  {
    assert WorkerOk(s.rows, s.workers[w]);
    var id := s.workers[w].stage.approval.id;
    if Granted(s, id) {
      var v :| 0 <= v < |s.workers| && Won(s.workers[v]) && Prize(s.workers[v]).id == id;
      assert WorkerOk(s.rows, s.workers[v]);
    }
  }
}
