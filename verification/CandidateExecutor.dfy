// The exclusive candidate executor: threads reserve a case, call an adapter,
// create its output file exclusively, record a receipt and release the case.
module CandidateExecutor {
  import opened Basics

  type Effects = map<string, int>

  datatype Case = Case(id: string, runMode: string, effects: Effects, maximumCost: real)

  datatype Subject = Subject(caseId: string, kind: string, id: string)

  datatype Limit = Limit(caseId: string, maximumCost: real, effects: Effects)

  datatype Observation = Observation(
    boundary: string, effects: Effects, groundTruthIds: seq<string>, sources: seq<string>, cost: real)

  datatype Receipt = Receipt(caseId: string, kind: string, subjectId: string, digest: string, configDigest: string, path: string)

  datatype Adapter = Analysis | Policy

  datatype Failure = Unmapped | PathEscapes | AlreadyExists | PathExists | BadBudget | NoAdapter | BadSource
                   | AdapterFailed | BadObservation | BadOutput | WriteFailed

  // What an adapter returned; None when it raised.
  type Response = Option<(Observation, string)>

  // The configuration and what the executor takes from its surroundings: the
  // output path of a case (None when it escapes the directory), the digest of
  // a text, str.strip(), and whether the source files of a case are in order.
  datatype Setup = Setup(
    subjects: seq<Subject>, limits: seq<Limit>, hasPolicyAdapter: bool, fields: set<string>, modelCalls: string,
    configDigest: string, path: string -> Option<string>, digest: string -> string, strip: string -> string,
    sourcesOk: Case -> bool)

  function SubjectFor(subjects: seq<Subject>, id: string): Option<Subject> {
    if subjects == [] then None
    else if subjects[0].caseId == id then Some(subjects[0])
    else SubjectFor(subjects[1..], id)
  }

  function LimitFor(limits: seq<Limit>, id: string): Option<Limit> {
    if limits == [] then None
    else if limits[0].caseId == id then Some(limits[0])
    else LimitFor(limits[1..], id)
  }

  // Everything that must hold before an adapter is called: the budget of the
  // case is the configured one and its mode fits the permitted model calls.
  function Prepare(setup: Setup, c: Case): Result<(Limit, Adapter), Failure> {
    match LimitFor(setup.limits, c.id)
    case None => Err(BadBudget)
    case Some(limit) =>
      if c.effects != limit.effects || c.maximumCost != limit.maximumCost then Err(BadBudget)
      else if setup.modelCalls !in limit.effects then Err(BadBudget)
      else
        var calls := limit.effects[setup.modelCalls];
        if !((c.runMode == "analysis" && calls == 1) || (c.runMode == "policy" && calls == 0)) then Err(BadBudget)
        else if c.runMode == "policy" && !setup.hasPolicyAdapter then Err(NoAdapter)
        else if !setup.sourcesOk(c) then Err(BadSource)
        else Ok((limit, if c.runMode == "analysis" then Analysis else Policy))
  }

  predicate WithinLimit(o: Observation, limit: Limit, setup: Setup) {
    && setup.strip(o.boundary) != "" && o.effects.Keys == setup.fields && o.effects == limit.effects
    && (forall k :: k in o.effects ==> o.effects[k] >= 0) && 0.0 <= o.cost <= limit.maximumCost
  }

  // The observation that is passed on, and the text to store.
  function Accept(setup: Setup, limit: Limit, response: Response): Result<(Observation, string), Failure> {
    match response
    case None => Err(AdapterFailed)
    case Some((o, output)) =>
      if !WithinLimit(o, limit, setup) then Err(BadObservation)
      else if setup.strip(output) == "" then Err(BadOutput)
      else Ok((o.(boundary := setup.strip(o.boundary)), output))
  }

  // ---- Threads ----

  // `created` are the files this executor created and wrote completely.
  datatype Core = Core(
    receipts: map<string, Receipt>, reserved: set<string>, files: map<string, string>, created: map<string, string>)

  datatype Stage =
    | Entering
    | Reserved(subject: Subject, path: string)
    | Answered(subject: Subject, path: string, observation: Observation, output: string)
    | Stored(subject: Subject, path: string, observation: Observation, output: string)
    | Leaving(result: Result<Observation, Failure>)
    | Finished(result: Result<Observation, Failure>)

  datatype Thread = Thread(task: Case, stage: Stage)

  // `calls` lists the adapter calls in order.
  datatype System = System(core: Core, threads: seq<Thread>, calls: seq<(string, Adapter)>)

  // Other programs may create files at any time, but not change existing ones.
  datatype Step =
    | Reserve(thread: nat)
    | CallAdapter(thread: nat, response: Response)
    | Store(thread: nat, complete: bool, partial: string)
    | Record(thread: nat)
    | Release(thread: nat)
    | Intrude(path: string, content: string)

  function MoveTo(s: System, t: nat, stage: Stage): System
    requires t < |s.threads|
  {
    s.(threads := s.threads[t := s.threads[t].(stage := stage)])
  }

  // The locked block at the start: at most one holder per case.
  function ReserveEffect(setup: Setup, core: Core, c: Case): (Core, Stage) {
    match (SubjectFor(setup.subjects, c.id), setup.path(c.id))
    case (None, _) => (core, Finished(Err(Unmapped)))
    case (Some(_), None) => (core, Finished(Err(PathEscapes)))
    case (Some(subject), Some(path)) =>
      if c.id in core.receipts || c.id in core.reserved then (core, Finished(Err(AlreadyExists)))
      else if path in core.files then (core, Finished(Err(PathExists)))
      else (core.(reserved := core.reserved + {c.id}), Reserved(subject, path))
  }

  function AfterCall(setup: Setup, c: Case, stage: Stage, response: Response): Stage
    requires stage.Reserved?
  {
    match Prepare(setup, c)
    case Err(e) => Leaving(Err(e))
    case Ok((limit, _)) =>
      match Accept(setup, limit, response)
      case Err(e) => Leaving(Err(e))
      case Ok((o, output)) => Answered(stage.subject, stage.path, o, output)
  }

  // Exclusive creation fails on any existing file; a failing write leaves what
  // it has written behind.
  function StoreEffect(core: Core, stage: Stage, complete: bool, partial: string): (Core, Stage)
    requires stage.Answered?
  {
    if stage.path in core.files then (core, Leaving(Err(PathExists)))
    else if !complete then (core.(files := core.files[stage.path := partial]), Leaving(Err(WriteFailed)))
    else (core.(files := core.files[stage.path := stage.output], created := core.created[stage.path := stage.output]),
          Stored(stage.subject, stage.path, stage.observation, stage.output))
  }

  function NewReceipt(setup: Setup, c: Case, stage: Stage): Receipt
    requires stage.Stored?
  {
    Receipt(c.id, stage.subject.kind, stage.subject.id, setup.digest(stage.output), setup.configDigest, stage.path)
  }

  predicate Enabled(s: System, step: Step) {
    match step
    case Reserve(t) => t < |s.threads| && s.threads[t].stage.Entering?
    case CallAdapter(t, _) => t < |s.threads| && s.threads[t].stage.Reserved?
    case Store(t, _, _) => t < |s.threads| && s.threads[t].stage.Answered?
    case Record(t) => t < |s.threads| && s.threads[t].stage.Stored?
    case Release(t) => t < |s.threads| && s.threads[t].stage.Leaving?
    case Intrude(path, _) => path !in s.core.files
  }

  // An action out of turn does nothing.
  function Apply(setup: Setup, s: System, step: Step): System {
    if !Enabled(s, step) then s
    else match step
      case Reserve(t) =>
        var (core, stage) := ReserveEffect(setup, s.core, s.threads[t].task);
        MoveTo(s.(core := core), t, stage)
      case CallAdapter(t, response) =>
        var c := s.threads[t].task;
        var called := MoveTo(s, t, AfterCall(setup, c, s.threads[t].stage, response));
        if Prepare(setup, c).Ok? then called.(calls := s.calls + [(c.id, Prepare(setup, c).value.1)]) else called
      case Store(t, complete, partial) =>
        var (core, stage) := StoreEffect(s.core, s.threads[t].stage, complete, partial);
        MoveTo(s.(core := core), t, stage)
      case Record(t) =>
        var (c, stage) := (s.threads[t].task, s.threads[t].stage);
        MoveTo(s.(core := s.core.(receipts := s.core.receipts[c.id := NewReceipt(setup, c, stage)])), t,
               Leaving(Ok(stage.observation)))
      case Release(t) =>
        MoveTo(s.(core := s.core.(reserved := s.core.reserved - {s.threads[t].task.id})), t,
               Finished(s.threads[t].stage.result))
      case Intrude(path, content) => s.(core := s.core.(files := s.core.files[path := content]))
  }

  function Execute(setup: Setup, s: System, steps: seq<Step>): System {
    if steps == [] then s else Apply(setup, Execute(setup, s, steps[..|steps| - 1]), steps[|steps| - 1])
  }

  predicate Start(s: System) {
    && s.core.receipts == map[] && s.core.reserved == {} && s.core.created == map[] && s.calls == []
    && forall t :: 0 <= t < |s.threads| ==> s.threads[t].stage.Entering?
  }

  // ---- The invariant ----

  predicate Holds(th: Thread) {
    th.stage.Reserved? || th.stage.Answered? || th.stage.Stored? || th.stage.Leaving?
  }

  // A holder's case is reserved; before it records, it has no receipt.
  ghost predicate ThreadOk(setup: Setup, core: Core, th: Thread) {
    && (Holds(th) ==> th.task.id in core.reserved)
    && (th.stage.Reserved? || th.stage.Answered? || th.stage.Stored? ==> th.task.id !in core.receipts)
    && (th.stage.Answered? || th.stage.Stored? ==>
          Prepare(setup, th.task).Ok? && Kept(setup, th.task, th.stage.observation))
    && (th.stage.Stored? ==>
          th.stage.path in core.created && core.created[th.stage.path] == th.stage.output
          && forall id :: id in core.receipts ==> core.receipts[id].path != th.stage.path)
    && (Succeeded(th) ==>
          th.task.id in core.receipts && Prepare(setup, th.task).Ok? && Kept(setup, th.task, th.stage.result.value))
  }

  // The observation stays within the configured limit of the case.
  predicate Kept(setup: Setup, c: Case, o: Observation)
    requires Prepare(setup, c).Ok?
  {
    o.effects == c.effects && o.effects.Keys == setup.fields && 0.0 <= o.cost <= c.maximumCost
  }

  ghost predicate Exclusive(s: System) {
    forall t, u :: 0 <= t < u < |s.threads| && Holds(s.threads[t]) && Holds(s.threads[u]) ==>
      s.threads[t].task.id != s.threads[u].task.id
  }

  ghost predicate SeparateFiles(s: System) {
    forall t, u :: 0 <= t < u < |s.threads| && s.threads[t].stage.Stored? && s.threads[u].stage.Stored? ==>
      s.threads[t].stage.path != s.threads[u].stage.path
  }

  predicate Succeeded(th: Thread) {
    (th.stage.Leaving? || th.stage.Finished?) && th.stage.result.Ok?
  }

  ghost predicate SuccessesDiffer(s: System) {
    forall t, u :: 0 <= t < u < |s.threads| && Succeeded(s.threads[t]) && Succeeded(s.threads[u]) ==>
      s.threads[t].task.id != s.threads[u].task.id
  }

  // A receipt is about a file that this executor created, as it still is.
  ghost predicate ReceiptOk(setup: Setup, core: Core, id: string)
    requires id in core.receipts
  {
    var r := core.receipts[id];
    && r.caseId == id && r.configDigest == setup.configDigest
    && r.path in core.created && r.digest == setup.digest(core.created[r.path])
  }

  ghost predicate ReceiptsOk(setup: Setup, core: Core) {
    && (forall id :: id in core.receipts ==> ReceiptOk(setup, core, id))
    && (forall a, b :: a in core.receipts && b in core.receipts && a != b ==> core.receipts[a].path != core.receipts[b].path)
    && (forall p :: p in core.created ==> p in core.files && core.files[p] == core.created[p])
  }

  ghost predicate Inv(setup: Setup, s: System) {
    && ReceiptsOk(setup, s.core) && Exclusive(s) && SeparateFiles(s) && SuccessesDiffer(s)
    && (forall t :: 0 <= t < |s.threads| ==> ThreadOk(setup, s.core, s.threads[t]))
    && (forall id :: id in s.core.reserved ==> Held(s, id))
  }

  ghost predicate Held(s: System, id: string) {
    exists t :: 0 <= t < |s.threads| && HolderOf(s.threads[t], id)
  }

  predicate HolderOf(th: Thread, id: string) {
    Holds(th) && th.task.id == id
  }

  // Receipts, reservations and created files are only added.
  ghost predicate Grows(before: Core, after: Core) {
    && (forall id :: id in before.receipts ==> id in after.receipts && after.receipts[id] == before.receipts[id])
    && before.reserved <= after.reserved
    && (forall p :: p in before.created ==> p in after.created && after.created[p] == before.created[p])
  }

  // A thread keeps its properties unless a receipt appears for the case it
  // holds or for the file it has stored.
  lemma OthersStayOk(setup: Setup, before: Core, after: Core, th: Thread)
    requires ThreadOk(setup, before, th) && Grows(before, after)
    requires Holds(th) && th.task.id in after.receipts ==> th.task.id in before.receipts
    requires th.stage.Stored? ==>
               forall id :: id in after.receipts && id !in before.receipts ==> after.receipts[id].path != th.stage.path
    ensures ThreadOk(setup, after, th)
  {
  }

  lemma HeldStays(s: System, after: System, t: nat, id: string)
    requires Held(s, id) && t < |s.threads| == |after.threads|
    requires forall u :: 0 <= u < |s.threads| && u != t ==> after.threads[u] == s.threads[u]
    requires HolderOf(s.threads[t], id) ==> HolderOf(after.threads[t], id)
    ensures Held(after, id)
  {
    var u :| 0 <= u < |s.threads| && HolderOf(s.threads[u], id);
    assert HolderOf(after.threads[u], id);
  }

  lemma RefusalKeepsInv(setup: Setup, s: System, t: nat, e: Failure)
    requires Inv(setup, s) && t < |s.threads| && s.threads[t].stage.Entering?
    ensures Inv(setup, MoveTo(s, t, Finished(Err(e))))
  {
    var after := MoveTo(s, t, Finished(Err(e)));
    forall id | id in s.core.reserved ensures Held(after, id) { HeldStays(s, after, t, id); }
  }

  lemma ReservationKeepsInv(setup: Setup, s: System, t: nat, stage: Stage)
    requires Inv(setup, s) && t < |s.threads| && s.threads[t].stage.Entering? && stage.Reserved?
    requires s.threads[t].task.id !in s.core.receipts && s.threads[t].task.id !in s.core.reserved
    ensures Inv(setup, MoveTo(s.(core := s.core.(reserved := s.core.reserved + {s.threads[t].task.id})), t, stage))
  {
    var own := s.threads[t].task.id;
    var core := s.core.(reserved := s.core.reserved + {own});
    var after := MoveTo(s.(core := core), t, stage);
    forall u | 0 <= u < |s.threads| && Holds(s.threads[u]) ensures s.threads[u].task.id != own {
      assert ThreadOk(setup, s.core, s.threads[u]);
    }
    forall u | 0 <= u < |s.threads| ensures ThreadOk(setup, core, after.threads[u]) {
      if u != t { OthersStayOk(setup, s.core, core, s.threads[u]); }
    }
    StoredReceiptsStay(setup, s.core, core);
    forall id | id in core.reserved ensures Held(after, id) {
      if id != own { HeldStays(s, after, t, id); } else { assert HolderOf(after.threads[t], id); }
    }
  }

  lemma ReserveKeepsInv(setup: Setup, s: System, t: nat)
    requires Inv(setup, s) && Enabled(s, Reserve(t))
    ensures Inv(setup, Apply(setup, s, Reserve(t)))
  {
    var stage := ReserveEffect(setup, s.core, s.threads[t].task).1;
    if stage.Reserved? {
      ReservationKeepsInv(setup, s, t, stage);
    } else {
      RefusalKeepsInv(setup, s, t, stage.result.error);
    }
  }

  // A holder moves on, still holding, and may have created a file.
  lemma MoveKeepsInv(setup: Setup, s: System, core: Core, t: nat, stage: Stage)
    requires Inv(setup, s) && t < |s.threads| && Holds(s.threads[t]) && !s.threads[t].stage.Leaving?
    requires ReceiptsOk(setup, core) && Grows(s.core, core)
    requires core.receipts == s.core.receipts && core.reserved == s.core.reserved
    requires stage.Answered? || stage.Stored? || (stage.Leaving? && stage.result.Err?)
    requires ThreadOk(setup, core, s.threads[t].(stage := stage))
    requires stage.Stored? ==>
               forall u :: 0 <= u < |s.threads| && s.threads[u].stage.Stored? ==> s.threads[u].stage.path != stage.path
    ensures Inv(setup, MoveTo(s.(core := core), t, stage))
  {
    var after := MoveTo(s.(core := core), t, stage);
    forall u | 0 <= u < |s.threads| ensures ThreadOk(setup, core, after.threads[u]) {
      if u != t { OthersStayOk(setup, s.core, core, s.threads[u]); }
    }
    forall id | id in core.reserved ensures Held(after, id) {
      HeldStays(s, after, t, id);
    }
  }

  lemma AcceptedIsKept(setup: Setup, c: Case, stage: Stage, response: Response)
    requires stage.Reserved?
    ensures var next := AfterCall(setup, c, stage, response);
            && (next.Answered? || (next.Leaving? && next.result.Err?))
            && (next.Answered? ==> Prepare(setup, c).Ok? && Kept(setup, c, next.observation))
  {
  }

  lemma CallKeepsInv(setup: Setup, s: System, t: nat, response: Response)
    requires Inv(setup, s) && Enabled(s, CallAdapter(t, response))
    ensures Inv(setup, Apply(setup, s, CallAdapter(t, response)))
  {
    var next := AfterCall(setup, s.threads[t].task, s.threads[t].stage, response);
    AcceptedIsKept(setup, s.threads[t].task, s.threads[t].stage, response);
    assert ThreadOk(setup, s.core, s.threads[t]);
    MoveKeepsInv(setup, s, s.core, t, next);
    CallsDoNotMatter(setup, MoveTo(s, t, next), Apply(setup, s, CallAdapter(t, response)).calls);
  }

  lemma CallsDoNotMatter(setup: Setup, s: System, calls: seq<(string, Adapter)>)
    requires Inv(setup, s)
    ensures Inv(setup, s.(calls := calls))
  {
    forall id | id in s.core.reserved ensures Held(s.(calls := calls), id) {
      var t :| 0 <= t < |s.threads| && HolderOf(s.threads[t], id);
      assert HolderOf(s.(calls := calls).threads[t], id);
    }
  }

  lemma StoreKeepsInv(setup: Setup, s: System, t: nat, complete: bool, partial: string)
    requires Inv(setup, s) && Enabled(s, Store(t, complete, partial))
    ensures Inv(setup, Apply(setup, s, Store(t, complete, partial)))
  {
    var (core, stage) := StoreEffect(s.core, s.threads[t].stage, complete, partial);
    assert ThreadOk(setup, s.core, s.threads[t]);
    StoredReceiptsStay(setup, s.core, core);
    forall u | 0 <= u < |s.threads| && s.threads[u].stage.Stored? && stage.Stored? ensures s.threads[u].stage.path != stage.path {
      assert ThreadOk(setup, s.core, s.threads[u]);
    }
    MoveKeepsInv(setup, s, core, t, stage);
  }

  lemma StoredReceiptsStay(setup: Setup, before: Core, after: Core)
    requires ReceiptsOk(setup, before) && after.receipts == before.receipts
    requires forall p :: p in before.created ==> p in after.created && after.created[p] == before.created[p]
    requires forall p :: p in after.created ==> p in after.files && after.files[p] == after.created[p]
    ensures ReceiptsOk(setup, after)
  {
    forall id | id in after.receipts ensures ReceiptOk(setup, after, id) {
      assert ReceiptOk(setup, before, id);
    }
  }

  lemma RecordedReceiptsOk(setup: Setup, core: Core, th: Thread)
    requires ReceiptsOk(setup, core) && ThreadOk(setup, core, th) && th.stage.Stored?
    ensures ReceiptsOk(setup, core.(receipts := core.receipts[th.task.id := NewReceipt(setup, th.task, th.stage)]))
  {
    var after := core.(receipts := core.receipts[th.task.id := NewReceipt(setup, th.task, th.stage)]);
    forall id | id in after.receipts ensures ReceiptOk(setup, after, id) {
      if id != th.task.id { assert ReceiptOk(setup, core, id); }
    }
  }

  lemma RecordedThreadsOk(setup: Setup, s: System, t: nat, u: nat)
    requires Inv(setup, s) && Enabled(s, Record(t)) && u < |s.threads|
    ensures ThreadOk(setup, Apply(setup, s, Record(t)).core, Apply(setup, s, Record(t)).threads[u])
  {
    assert ThreadOk(setup, s.core, s.threads[t]);
    if u != t { OthersStayOk(setup, s.core, Apply(setup, s, Record(t)).core, s.threads[u]); }
  }

  lemma RecordKeepsApart(setup: Setup, s: System, t: nat)
    requires Inv(setup, s) && Enabled(s, Record(t))
    ensures var after := Apply(setup, s, Record(t)); Exclusive(after) && SeparateFiles(after) && SuccessesDiffer(after)
  {
    var own := s.threads[t].task.id;
    assert ThreadOk(setup, s.core, s.threads[t]);
    forall u | 0 <= u < |s.threads| && u != t && Succeeded(s.threads[u]) ensures s.threads[u].task.id != own {
      assert ThreadOk(setup, s.core, s.threads[u]);
    }
  }

  lemma RecordKeepsInv(setup: Setup, s: System, t: nat)
    requires Inv(setup, s) && Enabled(s, Record(t))
    ensures Inv(setup, Apply(setup, s, Record(t)))
  {
    var after := Apply(setup, s, Record(t));
    RecordKeepsApart(setup, s, t);
    assert ThreadOk(setup, s.core, s.threads[t]);
    RecordedReceiptsOk(setup, s.core, s.threads[t]);
    forall u | 0 <= u < |s.threads| ensures ThreadOk(setup, after.core, after.threads[u]) {
      RecordedThreadsOk(setup, s, t, u);
    }
    forall id | id in after.core.reserved ensures Held(after, id) {
      HeldStays(s, after, t, id);
    }
  }

  lemma ReleaseKeepsInv(setup: Setup, s: System, t: nat)
    requires Inv(setup, s) && Enabled(s, Release(t))
    ensures Inv(setup, Apply(setup, s, Release(t)))
  {
    var after := Apply(setup, s, Release(t));
    var own := s.threads[t].task.id;
    forall u | 0 <= u < |s.threads| ensures ThreadOk(setup, after.core, after.threads[u]) {
      assert ThreadOk(setup, s.core, s.threads[u]);
    }
    forall id | id in after.core.reserved ensures Held(after, id) {
      HeldStays(s, after, t, id);
    }
    forall id | id in after.core.receipts ensures ReceiptOk(setup, after.core, id) {
      assert ReceiptOk(setup, s.core, id);
    }
  }

  lemma IntrudeKeepsInv(setup: Setup, s: System, path: string, content: string)
    requires Inv(setup, s) && Enabled(s, Intrude(path, content))
    ensures Inv(setup, Apply(setup, s, Intrude(path, content)))
  {
    var after := Apply(setup, s, Intrude(path, content));
    forall u | 0 <= u < |s.threads| ensures ThreadOk(setup, after.core, after.threads[u]) {
      assert ThreadOk(setup, s.core, s.threads[u]);
    }
    forall id | id in after.core.receipts ensures ReceiptOk(setup, after.core, id) {
      assert ReceiptOk(setup, s.core, id);
    }
    forall id | id in after.core.reserved ensures Held(after, id) {
      assert Held(s, id);
      var u :| 0 <= u < |s.threads| && HolderOf(s.threads[u], id);
      assert HolderOf(after.threads[u], id);
    }
  }

  lemma StepKeepsInv(setup: Setup, s: System, step: Step)
    requires Inv(setup, s)
    ensures Inv(setup, Apply(setup, s, step))
  {
    if Enabled(s, step) {
      match step
      case Reserve(t) => ReserveKeepsInv(setup, s, t);
      case CallAdapter(t, response) => CallKeepsInv(setup, s, t, response);
      case Store(t, complete, partial) => StoreKeepsInv(setup, s, t, complete, partial);
      case Record(t) => RecordKeepsInv(setup, s, t);
      case Release(t) => ReleaseKeepsInv(setup, s, t);
      case Intrude(path, content) => IntrudeKeepsInv(setup, s, path, content);
    }
  }

  lemma {:induction false} EveryRunKeepsInv(setup: Setup, s: System, steps: seq<Step>)
    requires Start(s)
    ensures Inv(setup, Execute(setup, s, steps))
  {
    if steps != [] {
      EveryRunKeepsInv(setup, s, steps[..|steps| - 1]);
      StepKeepsInv(setup, Execute(setup, s, steps[..|steps| - 1]), steps[|steps| - 1]);
    }
  }

  // ---- What every run guarantees ----

  lemma {:induction false} TasksAreFixed(setup: Setup, s: System, steps: seq<Step>)
    ensures var end := Execute(setup, s, steps);
            && |end.threads| == |s.threads|
            && forall t :: 0 <= t < |s.threads| ==> end.threads[t].task == s.threads[t].task
  {
    if steps != [] {
      TasksAreFixed(setup, s, steps[..|steps| - 1]);
    }
  }

  // Of two executions of one case, at most one holds the case at any moment
  // and at most one ever succeeds.
  lemma CasesAreExclusive(setup: Setup, s: System, steps: seq<Step>, t: nat, u: nat)
    requires Start(s) && t < u < |s.threads| && s.threads[t].task.id == s.threads[u].task.id
    ensures var end := Execute(setup, s, steps);
            && |end.threads| == |s.threads|
            && !(Holds(end.threads[t]) && Holds(end.threads[u]))
            && !(Succeeded(end.threads[t]) && Succeeded(end.threads[u]))
  {
    EveryRunKeepsInv(setup, s, steps);
    TasksAreFixed(setup, s, steps);
  }

  // A reservation is held by a running thread and is never left behind.
  lemma NoReservationIsLeaked(setup: Setup, s: System, steps: seq<Step>)
    requires Start(s)
    requires forall t :: 0 <= t < |Execute(setup, s, steps).threads| ==> !Holds(Execute(setup, s, steps).threads[t])
    ensures Execute(setup, s, steps).core.reserved == {}
  {
    EveryRunKeepsInv(setup, s, steps);
    var end := Execute(setup, s, steps);
    assert forall id :: id in end.core.reserved ==> Held(end, id);
  }

  // A receipt binds its case to the digest of a file that this executor itself
  // created and that still has the content it wrote; no two share a file.
  lemma ReceiptsBindCreatedFiles(setup: Setup, s: System, steps: seq<Step>, id: string)
    requires Start(s) && id in Execute(setup, s, steps).core.receipts
    ensures var core := Execute(setup, s, steps).core;
            var r := core.receipts[id];
            && r.caseId == id && r.path in core.created && r.path in core.files
            && core.files[r.path] == core.created[r.path] && r.digest == setup.digest(core.files[r.path])
            && forall other :: other in core.receipts && other != id ==> core.receipts[other].path != r.path
  {
    EveryRunKeepsInv(setup, s, steps);
    assert ReceiptOk(setup, Execute(setup, s, steps).core, id);
  }

  // A successful execution returns an observation of exactly the configured
  // side effects, at no more than the configured cost, and leaves a receipt.
  lemma SuccessStaysWithinBudget(setup: Setup, s: System, steps: seq<Step>, t: nat)
    requires Start(s) && t < |s.threads|
    ensures var end := Execute(setup, s, steps);
            && |end.threads| == |s.threads|
            && (end.threads[t].stage.Finished? && end.threads[t].stage.result.Ok? ==>
                  var (c, o) := (s.threads[t].task, end.threads[t].stage.result.value);
                  c.id in end.core.receipts && o.effects == c.effects && 0.0 <= o.cost <= c.maximumCost)
  {
    EveryRunKeepsInv(setup, s, steps);
    TasksAreFixed(setup, s, steps);
    assert ThreadOk(setup, Execute(setup, s, steps).core, Execute(setup, s, steps).threads[t]);
  }

  function CallsFor(calls: seq<(string, Adapter)>, id: string): nat {
    if calls == [] then 0
    else CallsFor(calls[..|calls| - 1], id) + if calls[|calls| - 1].0 == id then 1 else 0
  }

  lemma StepKeepsReceipt(setup: Setup, s: System, step: Step, id: string)
    requires Inv(setup, s) && id in s.core.receipts
    ensures id in Apply(setup, s, step).core.receipts && Apply(setup, s, step).core.receipts[id] == s.core.receipts[id]
  {
    if Enabled(s, step) && step.Record? { assert ThreadOk(setup, s.core, s.threads[step.thread]); }
  }

  lemma StepAfterReceipt(setup: Setup, s: System, step: Step, id: string)
    requires Inv(setup, s) && id in s.core.receipts
    ensures CallsFor(Apply(setup, s, step).calls, id) == CallsFor(s.calls, id)
  {
    var calls := Apply(setup, s, step).calls;
    if calls != s.calls {
      assert Enabled(s, step) && step.CallAdapter?;
      assert ThreadOk(setup, s.core, s.threads[step.thread]);
      assert calls[..|calls| - 1] == s.calls;
    }
  }

  // Once a case has a receipt it keeps that very receipt, and no later
  // execution of the case reaches an adapter.
  lemma {:induction false} ReceiptsAreFinal(setup: Setup, s: System, steps: seq<Step>, n: nat, id: string)
    requires Start(s) && n <= |steps| && id in Execute(setup, s, steps[..n]).core.receipts
    ensures var (earlier, end) := (Execute(setup, s, steps[..n]), Execute(setup, s, steps));
            && id in end.core.receipts && end.core.receipts[id] == earlier.core.receipts[id]
            && CallsFor(end.calls, id) == CallsFor(earlier.calls, id)
  {
    if n < |steps| {
      var m := |steps| - 1;
      assert steps[..m][..n] == steps[..n];
      ReceiptsAreFinal(setup, s, steps[..m], n, id);
      EveryRunKeepsInv(setup, s, steps[..m]);
      StepKeepsReceipt(setup, Execute(setup, s, steps[..m]), steps[m], id);
      StepAfterReceipt(setup, Execute(setup, s, steps[..m]), steps[m], id);
    } else {
      assert steps[..n] == steps;
    }
  }

  // An adapter only ever sees cases that fit it: the analysis adapter those
  // that permit exactly one model call, the policy adapter those with none.
  ghost predicate CallFits(setup: Setup, s: System, call: (string, Adapter)) {
    exists t :: 0 <= t < |s.threads| && FittingTask(setup, s.threads[t].task, call)
  }

  predicate FittingTask(setup: Setup, c: Case, call: (string, Adapter)) {
    && c.id == call.0 && Prepare(setup, c).Ok? && setup.modelCalls in c.effects
    && match call.1
       case Analysis => c.runMode == "analysis" && c.effects[setup.modelCalls] == 1
       case Policy => setup.hasPolicyAdapter && c.effects[setup.modelCalls] == 0
  }

  lemma PreparedFits(setup: Setup, c: Case)
    requires Prepare(setup, c).Ok?
    ensures FittingTask(setup, c, (c.id, Prepare(setup, c).value.1))
  {
    assert "analysis"[0] != "policy"[0];
  }

  lemma {:induction false} CallsFitTheirAdapter(setup: Setup, s: System, steps: seq<Step>, call: (string, Adapter))
    requires Start(s) && call in Execute(setup, s, steps).calls
    ensures CallFits(setup, s, call)
  {
    if steps != [] {
      var before := Execute(setup, s, steps[..|steps| - 1]);
      if call in before.calls {
        CallsFitTheirAdapter(setup, s, steps[..|steps| - 1], call);
      } else {
        var t := steps[|steps| - 1].thread;
        TasksAreFixed(setup, s, steps[..|steps| - 1]);
        PreparedFits(setup, s.threads[t].task);
        assert FittingTask(setup, s.threads[t].task, call);
      }
    }
  }

  // ---- One execution on its own ----

  // The shared state and result when nothing else happens meanwhile.
  function Alone(setup: Setup, core: Core, c: Case, response: Response, complete: bool, partial: string)
    : (Core, Result<Observation, Failure>)
  {
    var (held, entered) := ReserveEffect(setup, core, c);
    if entered.Finished? then (core, entered.result)
    else
      var called := AfterCall(setup, c, entered, response);
      if called.Leaving? then (core, called.result)
      else
        var (filed, stored) := StoreEffect(core, called, complete, partial);
        if stored.Leaving? then (filed, stored.result)
        else (filed.(receipts := filed.receipts[c.id := NewReceipt(setup, c, stored)]), Ok(stored.observation))
  }

  class Disk {
    var files: map<string, string>
    ghost var created: map<string, string>

    constructor (files: map<string, string>)
      ensures this.files == files && created == map[]
    {
      this.files, created := files, map[];
    }

    // Opens for exclusive creation and writes, perhaps not to the end.
    method CreateExclusively(path: string, content: string, complete: bool, partial: string) returns (taken: bool)
      modifies this
      ensures taken == (path in old(files))
      ensures taken ==> files == old(files) && created == old(created)
      ensures !taken ==> files == old(files)[path := if complete then content else partial]
      ensures !taken ==> created == if complete then old(created)[path := content] else old(created)
    {
      taken := path in files;
      if !taken {
        files := files[path := if complete then content else partial];
        if complete { created := created[path := content]; }
      }
    }
  }

  class B1CandidateExecutor {
    const setup: Setup
    const disk: Disk
    var receipts: map<string, Receipt>
    var reserved: set<string>

    ghost function State(): Core
      reads this, disk
    {
      Core(receipts, reserved, disk.files, disk.created)
    }

    constructor (setup: Setup, disk: Disk)
      ensures this.setup == setup && this.disk == disk && receipts == map[] && reserved == {}
    {
      this.setup, this.disk, receipts, reserved := setup, disk, map[], {};
    }

    method Execute(c: Case, response: Response, complete: bool, partial: string)
      returns (r: Result<Observation, Failure>)
      modifies this, disk
      ensures (State(), r) == Alone(setup, old(State()), c, response, complete, partial)
    {
      var subject := SubjectFor(setup.subjects, c.id);
      if subject.None? { return Err(Unmapped); }
      var path := setup.path(c.id);
      if path.None? { return Err(PathEscapes); }
      if c.id in receipts || c.id in reserved { return Err(AlreadyExists); }
      if path.value in disk.files { return Err(PathExists); }
      reserved := reserved + {c.id};
      r := CallAndStore(c, subject.value, path.value, response, complete, partial);
      reserved := reserved - {c.id};
    }

    // The receipts in the order of their case identifiers.
    method Receipts() returns (r: seq<Receipt>)
      ensures |r| == |SortedTexts(receipts.Keys)|
      ensures forall i :: 0 <= i < |r| ==> r[i] == receipts[SortedTexts(receipts.Keys)[i]]
    {
      var ids := SortedTexts(receipts.Keys);
      r := [];
      var i := 0;
      while i < |ids|
        invariant 0 <= i <= |ids| && |r| == i
        invariant forall k :: 0 <= k < i ==> r[k] == receipts[ids[k]]
      {
        assert ids[i] in ids;
        r := r + [receipts[ids[i]]];
        i := i + 1;
      }
    }

    // The guarded part, after which the reservation is always given up.
    method CallAndStore(c: Case, subject: Subject, path: string, response: Response, complete: bool, partial: string)
      returns (r: Result<Observation, Failure>)
      modifies this`receipts, disk
      ensures var called := AfterCall(setup, c, Reserved(subject, path), response);
              if called.Leaving? then State() == old(State()) && r == called.result
              else
                var (filed, stored) := StoreEffect(old(State()), called, complete, partial);
                if stored.Leaving? then State() == filed && r == stored.result
                else
                  && State() == filed.(receipts := filed.receipts[c.id := NewReceipt(setup, c, stored)])
                  && r == Ok(stored.observation)
    {
      var prepared := Prepare(setup, c);
      if prepared.Err? { return Err(prepared.error); }
      var accepted := Accept(setup, prepared.value.0, response);
      if accepted.Err? { return Err(accepted.error); }
      var (observation, output) := accepted.value;
      var taken := disk.CreateExclusively(path, output, complete, partial);
      if taken { return Err(PathExists); }
      if !complete { return Err(WriteFailed); }
      receipts := receipts[c.id := Receipt(c.id, subject.kind, subject.id, setup.digest(output), setup.configDigest, path)];
      return Ok(observation);
    }
  }

  lemma OutOfTurn(setup: Setup, s: System, step: Step)
    requires !Enabled(s, step)
    ensures Apply(setup, s, step) == s
  {
  }

  lemma LeavingEnds(setup: Setup, s: System, r: Result<Observation, Failure>, complete: bool, partial: string)
    requires |s.threads| == 1 && s.threads[0].stage == Leaving(r)
    ensures var kept := Apply(setup, Apply(setup, s, Store(0, complete, partial)), Record(0));
            kept == s && Ends(Apply(setup, s, Release(0)), s.core, s.threads[0].task, r)
  {
    OutOfTurn(setup, s, Store(0, complete, partial));
    OutOfTurn(setup, s, Record(0));
  }

  predicate Ends(end: System, core: Core, c: Case, r: Result<Observation, Failure>) {
    end.core == core.(reserved := core.reserved - {c.id}) && end.threads == [Thread(c, Finished(r))]
  }

  lemma AnsweredEnds(setup: Setup, s: System, complete: bool, partial: string)
    requires |s.threads| == 1 && s.threads[0].stage.Answered?
    ensures var stored := Apply(setup, s, Store(0, complete, partial));
            var end := Apply(setup, Apply(setup, stored, Record(0)), Release(0));
            var c := s.threads[0].task;
            var (core, stage) := StoreEffect(s.core, s.threads[0].stage, complete, partial);
            if stage.Leaving? then Ends(end, core, c, stage.result)
            else Ends(end, core.(receipts := core.receipts[c.id := NewReceipt(setup, c, stage)]), c, Ok(stage.observation))
  {
    var stored := Apply(setup, s, Store(0, complete, partial));
    if stored.threads[0].stage.Leaving? {
      OutOfTurn(setup, stored, Record(0));
    }
  }

  lemma ReservedEnds(setup: Setup, core: Core, c: Case, stage: Stage, response: Response, complete: bool, partial: string)
    requires stage.Reserved?
    ensures var s := System(core, [Thread(c, stage)], []);
            var called := Apply(setup, s, CallAdapter(0, response));
            var end := Apply(setup, Apply(setup, Apply(setup, called, Store(0, complete, partial)), Record(0)), Release(0));
            var next := AfterCall(setup, c, stage, response);
            if next.Leaving? then Ends(end, core, c, next.result)
            else
              var (filed, stored) := StoreEffect(core, next, complete, partial);
              if stored.Leaving? then Ends(end, filed, c, stored.result)
              else Ends(end, filed.(receipts := filed.receipts[c.id := NewReceipt(setup, c, stored)]), c, Ok(stored.observation))
  {
    var called := Apply(setup, System(core, [Thread(c, stage)], []), CallAdapter(0, response));
    assert called.core == core && called.threads == [Thread(c, AfterCall(setup, c, stage, response))];
    if called.threads[0].stage.Leaving? {
      LeavingEnds(setup, called, called.threads[0].stage.result, complete, partial);
    } else {
      AnsweredEnds(setup, called, complete, partial);
    }
  }

  lemma FinishedStays(setup: Setup, s: System, response: Response, complete: bool, partial: string)
    requires |s.threads| == 1 && s.threads[0].stage.Finished?
    ensures Apply(setup, Apply(setup, Apply(setup, Apply(setup, s, CallAdapter(0, response)), Store(0, complete, partial)),
                               Record(0)), Release(0)) == s
  {
    OutOfTurn(setup, s, CallAdapter(0, response));
    OutOfTurn(setup, s, Store(0, complete, partial));
    OutOfTurn(setup, s, Record(0));
    OutOfTurn(setup, s, Release(0));
  }

  // The whole protocol of a single thread amounts to that.
  lemma AloneIsOneInterleaving(setup: Setup, core: Core, c: Case, response: Response, complete: bool, partial: string)
    ensures var steps := [Reserve(0), CallAdapter(0, response), Store(0, complete, partial), Record(0), Release(0)];
            var end := Execute(setup, System(core, [Thread(c, Entering)], []), steps);
            var (after, r) := Alone(setup, core, c, response, complete, partial);
            end.core == after && end.threads == [Thread(c, Finished(r))]
  {
    var s := System(core, [Thread(c, Entering)], []);
    var (held, stage) := ReserveEffect(setup, core, c);
    FiveSteps(setup, s, [Reserve(0), CallAdapter(0, response), Store(0, complete, partial), Record(0), Release(0)]);
    assert Apply(setup, s, Reserve(0)) == System(held, [Thread(c, stage)], []);
    if stage.Reserved? {
      ReservedEnds(setup, held, c, stage, response, complete, partial);
      assert held.reserved - {c.id} == core.reserved;
    } else {
      FinishedStays(setup, System(held, [Thread(c, stage)], []), response, complete, partial);
    }
  }

  lemma FiveSteps(setup: Setup, s: System, steps: seq<Step>)
    requires |steps| == 5
    ensures Execute(setup, s, steps)
            == Apply(setup, Apply(setup, Apply(setup, Apply(setup, Apply(setup, s, steps[0]), steps[1]), steps[2]), steps[3]), steps[4])
  {
    assert steps[..4][..3] == steps[..3] && steps[..3][..2] == steps[..2] && steps[..2][..1] == steps[..1] && steps[..1][..0] == [];
    assert Execute(setup, s, steps[..1]) == Apply(setup, s, steps[0]);
    assert Execute(setup, s, steps[..2]) == Apply(setup, Execute(setup, s, steps[..1]), steps[1]);
    assert Execute(setup, s, steps[..3]) == Apply(setup, Execute(setup, s, steps[..2]), steps[2]);
    assert Execute(setup, s, steps[..4]) == Apply(setup, Execute(setup, s, steps[..3]), steps[3]);
  }
}
