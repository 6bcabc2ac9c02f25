// Citation creation over tables with keys: the two join statements, and the
// single and the batch operation, each one transaction.
module Citations {
  import opened Basics

  datatype Chunk = Chunk(versionId: nat, locationId: nat, text: string)

  datatype Document = Document(projectId: nat, kind: string, name: string)

  datatype Row = Row(projectId: nat, traceId: nat, chunkId: nat, versionId: nat, locationId: nat, createdAt: int)

  // The tables that citation creation only reads.  Candidates carry their final
  // rank, if they were selected; versions point to documents, traces to projects.
  datatype Evidence = Evidence(
    projects: set<nat>, documents: map<nat, Document>, versions: map<nat, nat>, locations: map<nat, string>,
    chunks: map<nat, Chunk>, traces: map<nat, nat>, candidates: map<(nat, nat), Option<int>>)

  type Rows = map<nat, Row>

  datatype Citation = Citation(id: nat, row: Row, text: string, document: Document, location: string)

  datatype Failure = Invalid | Unavailable

  // What a request asks for: chunks of one trace in one project.
  datatype Scope = Scope(projectId: nat, traceId: nat)

  // ---- Keys ----

  predicate ReferencesHold(e: Evidence, r: Row) {
    && r.projectId in e.projects && (r.traceId, r.chunkId) in e.candidates
    && r.versionId in e.versions && r.locationId in e.locations
  }

  // The declared foreign keys of the evidence.
  ghost predicate EvidenceKeyed(e: Evidence) {
    && (forall d :: d in e.documents ==> e.documents[d].projectId in e.projects)
    && (forall v :: v in e.versions ==> e.versions[v] in e.documents)
    && (forall c :: c in e.chunks ==> e.chunks[c].versionId in e.versions && e.chunks[c].locationId in e.locations)
    && (forall t :: t in e.traces ==> e.traces[t] in e.projects)
    && (forall t, c :: (t, c) in e.candidates ==> t in e.traces && c in e.chunks)
  }

  // The foreign keys of citations, and one citation per trace and chunk.
  ghost predicate Keyed(e: Evidence, rows: Rows) {
    && (forall id :: id in rows ==> ReferencesHold(e, rows[id]))
    && (forall a, b :: a in rows && b in rows && a != b ==> !SameSlot(rows[a], rows[b]))
  }

  predicate SameSlot(a: Row, b: Row) {
    a.traceId == b.traceId && a.chunkId == b.chunkId
  }

  // ---- The two statements ----

  // The chunk was selected by a trace of the project that owns its document.
  predicate Selected(e: Evidence, s: Scope, chunkId: nat) {
    && (s.traceId, chunkId) in e.candidates && e.candidates[(s.traceId, chunkId)].Some?
    && s.traceId in e.traces && e.traces[s.traceId] == s.projectId
    && chunkId in e.chunks && e.chunks[chunkId].versionId in e.versions
    && e.versions[e.chunks[chunkId].versionId] in e.documents
    && e.documents[e.versions[e.chunks[chunkId].versionId]].projectId == e.traces[s.traceId]
  }

  // A citation row is shown only with the version, location and project that
  // its chunk has.
  predicate Shown(e: Evidence, r: Row) {
    && r.chunkId in e.chunks && r.versionId in e.versions && e.versions[r.versionId] in e.documents
    && r.locationId in e.locations
    && e.chunks[r.chunkId].versionId == r.versionId && e.chunks[r.chunkId].locationId == r.locationId
    && e.documents[e.versions[r.versionId]].projectId == r.projectId
  }

  function CitationOf(e: Evidence, rows: Rows, id: nat): Citation
    requires id in rows && Shown(e, rows[id])
  {
    var r := rows[id];
    Citation(id, r, e.chunks[r.chunkId].text, e.documents[e.versions[r.versionId]], e.locations[r.locationId])
  }

  predicate Answers(e: Evidence, rows: Rows, id: nat, s: Scope, chunkId: nat) {
    && id in rows && Shown(e, rows[id])
    && rows[id].projectId == s.projectId && rows[id].traceId == s.traceId && rows[id].chunkId == chunkId
  }

  ghost predicate Answered(e: Evidence, rows: Rows, s: Scope, chunkId: nat) {
    exists id :: Answers(e, rows, id, s, chunkId)
  }

  ghost function Answer(e: Evidence, rows: Rows, s: Scope, chunkId: nat): (id: nat)
    requires Answered(e, rows, s, chunkId)
    ensures Answers(e, rows, id, s, chunkId)
  {
    var id :| Answers(e, rows, id, s, chunkId);
    id
  }

  lemma AnswerIsUnique(e: Evidence, rows: Rows, s: Scope, chunkId: nat, id: nat)
    requires Keyed(e, rows) && Answers(e, rows, id, s, chunkId)
    ensures Answered(e, rows, s, chunkId) && Answer(e, rows, s, chunkId) == id
  {
    assert SameSlot(rows[Answer(e, rows, s, chunkId)], rows[id]);
  }

  // ---- What creation does ----

  function NewRow(e: Evidence, s: Scope, chunkId: nat, now: int): Row
    requires chunkId in e.chunks
  {
    Row(s.projectId, s.traceId, chunkId, e.chunks[chunkId].versionId, e.chunks[chunkId].locationId, now)
  }

  predicate Insertable(e: Evidence, rows: Rows, id: nat, r: Row) {
    id !in rows && ReferencesHold(e, r) && forall other :: other in rows ==> !SameSlot(rows[other], r)
  }

  // Inserts new rows for the chunks one after the other, or, on any violated
  // key, nothing.
  function InsertAll(e: Evidence, rows: Rows, s: Scope, chunkIds: seq<nat>, newId: nat -> nat, now: int): Option<Rows>
    requires forall c :: c in chunkIds ==> c in e.chunks
    decreases |chunkIds|
  {
    if chunkIds == [] then Some(rows)
    else
      var n := |chunkIds| - 1;
      match InsertAll(e, rows, s, chunkIds[..n], newId, now)
      case None => None
      case Some(inserted) =>
        var row := NewRow(e, s, chunkIds[n], now);
        if Insertable(e, inserted, newId(n), row) then Some(inserted[newId(n) := row]) else None
  }

  // The requested chunks without a citation, in order.
  ghost function Missing(e: Evidence, rows: Rows, s: Scope, chunkIds: seq<nat>): seq<nat> {
    if chunkIds == [] then []
    else
      var n := |chunkIds| - 1;
      Missing(e, rows, s, chunkIds[..n]) + if Answered(e, rows, s, chunkIds[n]) then [] else [chunkIds[n]]
  }

  lemma {:induction false} MissingMembers(e: Evidence, rows: Rows, s: Scope, chunkIds: seq<nat>)
    ensures forall c :: c in Missing(e, rows, s, chunkIds) <==> c in chunkIds && !Answered(e, rows, s, c)
    ensures Distinct(chunkIds) ==> Distinct(Missing(e, rows, s, chunkIds))
  {
    if chunkIds != [] {
      var n := |chunkIds| - 1;
      MissingMembers(e, rows, s, chunkIds[..n]);
      assert chunkIds == chunkIds[..n] + [chunkIds[n]];
      var rest := Missing(e, rows, s, chunkIds[..n]);
      if Distinct(chunkIds) {
        forall i | 0 <= i < |rest| ensures rest[i] != chunkIds[n] {
          assert rest[i] in chunkIds[..n];
        }
      }
    }
  }

  ghost predicate AllSelected(e: Evidence, s: Scope, chunkIds: seq<nat>) {
    forall c :: c in chunkIds ==> Selected(e, s, c)
  }

  ghost predicate ValidRequest(e: Evidence, s: Scope, chunkIds: seq<nat>) {
    chunkIds != [] && Distinct(chunkIds) && AllSelected(e, s, chunkIds)
  }

  // The citations after the batch, if it succeeds.
  ghost function Batch(e: Evidence, rows: Rows, s: Scope, chunkIds: seq<nat>, newId: nat -> nat, now: int): Option<Rows>
    requires AllSelected(e, s, chunkIds)
  {
    MissingMembers(e, rows, s, chunkIds);
    InsertAll(e, rows, s, Missing(e, rows, s, chunkIds), newId, now)
  }

  // ---- Insertion keeps the keys ----

  // `after` has the old rows, a new one per chunk, and nothing else.
  ghost predicate Grown(e: Evidence, rows: Rows, after: Rows, s: Scope, chunkIds: seq<nat>, newId: nat -> nat, now: int)
    requires forall c :: c in chunkIds ==> c in e.chunks
  {
    && (forall id :: id in rows ==> id in after && after[id] == rows[id])
    && (forall i :: 0 <= i < |chunkIds| ==> HasNew(e, after, s, chunkIds[i], newId(i), now))
    && (forall id :: id in after && id !in rows ==> IsNew(chunkIds, newId, id))
  }

  predicate HasNew(e: Evidence, rows: Rows, s: Scope, chunkId: nat, id: nat, now: int) {
    id in rows && chunkId in e.chunks && rows[id] == NewRow(e, s, chunkId, now)
  }

  ghost predicate IsNew(chunkIds: seq<nat>, newId: nat -> nat, id: nat) {
    exists i :: 0 <= i < |chunkIds| && newId(i) == id
  }

  lemma {:induction false} InsertAllGrows(e: Evidence, rows: Rows, s: Scope, chunkIds: seq<nat>, newId: nat -> nat, now: int)
    requires Keyed(e, rows) && (forall c :: c in chunkIds ==> c in e.chunks)
    requires InsertAll(e, rows, s, chunkIds, newId, now).Some?
    ensures Keyed(e, InsertAll(e, rows, s, chunkIds, newId, now).value)
    ensures Grown(e, rows, InsertAll(e, rows, s, chunkIds, newId, now).value, s, chunkIds, newId, now)
    decreases |chunkIds|
  {
    if chunkIds != [] {
      var n := |chunkIds| - 1;
      InsertAllGrows(e, rows, s, chunkIds[..n], newId, now);
      var inserted := InsertAll(e, rows, s, chunkIds[..n], newId, now).value;
      var row := NewRow(e, s, chunkIds[n], now);
      InsertKeeps(e, inserted, newId(n), row);
      GrownNext(e, rows, inserted, s, chunkIds, newId, now);
    }
  }

  lemma InsertKeeps(e: Evidence, rows: Rows, id: nat, r: Row)
    requires Keyed(e, rows) && Insertable(e, rows, id, r)
    ensures Keyed(e, rows[id := r])
  {
  }

  lemma GrownNext(e: Evidence, rows: Rows, inserted: Rows, s: Scope, chunkIds: seq<nat>, newId: nat -> nat, now: int)
    requires chunkIds != [] && (forall c :: c in chunkIds ==> c in e.chunks)
    requires Grown(e, rows, inserted, s, chunkIds[..|chunkIds| - 1], newId, now) && newId(|chunkIds| - 1) !in inserted
    ensures var n := |chunkIds| - 1;
            Grown(e, rows, inserted[newId(n) := NewRow(e, s, chunkIds[n], now)], s, chunkIds, newId, now)
  {
    var n := |chunkIds| - 1;
    var after := inserted[newId(n) := NewRow(e, s, chunkIds[n], now)];
    forall i | 0 <= i < |chunkIds| ensures HasNew(e, after, s, chunkIds[i], newId(i), now) {
      if i < n {
        assert HasNew(e, inserted, s, chunkIds[..n][i], newId(i), now);
      }
    }
    forall id | id in after && id !in rows ensures IsNew(chunkIds, newId, id) {
      if id != newId(n) {
        assert IsNew(chunkIds[..n], newId, id);
      }
    }
  }

  lemma NewRowIsShown(e: Evidence, s: Scope, chunkId: nat, now: int)
    requires EvidenceKeyed(e) && Selected(e, s, chunkId)
    ensures Shown(e, NewRow(e, s, chunkId, now)) && ReferencesHold(e, NewRow(e, s, chunkId, now))
  {
  }

  // A successful batch keeps the keys and grows by the missing chunks.
  lemma BatchGrows(e: Evidence, rows: Rows, s: Scope, chunkIds: seq<nat>, newId: nat -> nat, now: int)
    requires Keyed(e, rows) && AllSelected(e, s, chunkIds) && Batch(e, rows, s, chunkIds, newId, now).Some?
    ensures Keyed(e, Batch(e, rows, s, chunkIds, newId, now).value)
    ensures forall c :: c in Missing(e, rows, s, chunkIds) ==> c in e.chunks
    ensures Grown(e, rows, Batch(e, rows, s, chunkIds, newId, now).value, s, Missing(e, rows, s, chunkIds), newId, now)
  {
    MissingMembers(e, rows, s, chunkIds);
    InsertAllGrows(e, rows, s, Missing(e, rows, s, chunkIds), newId, now);
  }

  // After a successful batch the final lookup finds every requested chunk, and
  // for a chunk that had a citation it finds that one.
  lemma EveryRequestIsAnswered(e: Evidence, rows: Rows, s: Scope, chunkIds: seq<nat>, newId: nat -> nat, now: int, c: nat)
    requires EvidenceKeyed(e) && Keyed(e, rows) && AllSelected(e, s, chunkIds) && c in chunkIds
    requires Batch(e, rows, s, chunkIds, newId, now).Some?
    ensures Keyed(e, Batch(e, rows, s, chunkIds, newId, now).value)
    ensures Answered(e, Batch(e, rows, s, chunkIds, newId, now).value, s, c)
    ensures Answered(e, rows, s, c) ==>
              Answer(e, Batch(e, rows, s, chunkIds, newId, now).value, s, c) == Answer(e, rows, s, c)
  {
    BatchGrows(e, rows, s, chunkIds, newId, now);
    GrownAnswers(e, rows, Batch(e, rows, s, chunkIds, newId, now).value, s, chunkIds, newId, now, c);
  }

  lemma GrownAnswers(e: Evidence, rows: Rows, after: Rows, s: Scope, chunkIds: seq<nat>, newId: nat -> nat, now: int, c: nat)
    requires EvidenceKeyed(e) && Keyed(e, after) && AllSelected(e, s, chunkIds) && c in chunkIds
    requires forall c :: c in Missing(e, rows, s, chunkIds) ==> c in e.chunks
    requires Grown(e, rows, after, s, Missing(e, rows, s, chunkIds), newId, now)
    ensures Answered(e, after, s, c)
    ensures Answered(e, rows, s, c) ==> Answer(e, after, s, c) == Answer(e, rows, s, c)
  {
    if Answered(e, rows, s, c) {
      assert Answers(e, after, Answer(e, rows, s, c), s, c);
      AnswerIsUnique(e, after, s, c, Answer(e, rows, s, c));
    } else {
      MissingMembers(e, rows, s, chunkIds);
      var missing := Missing(e, rows, s, chunkIds);
      var j :| 0 <= j < |missing| && missing[j] == c;
      NewRowIsShown(e, s, c, now);
      assert HasNew(e, after, s, missing[j], newId(j), now);
      assert Answers(e, after, newId(j), s, c);
    }
  }

  // ---- The repository ----

  class CitationRepository {
    const evidence: Evidence
    var rows: Rows

    ghost predicate Valid()
      reads this
    {
      EvidenceKeyed(evidence) && Keyed(evidence, rows)
    }

    constructor (evidence: Evidence, rows: Rows)
      requires EvidenceKeyed(evidence) && Keyed(evidence, rows)
      ensures Valid() && this.evidence == evidence && this.rows == rows
    {
      this.evidence, this.rows := evidence, rows;
    }

    method Lookup(s: Scope, chunkId: nat) returns (found: Option<nat>)
      requires Valid()
      ensures found.Some? <==> Answered(evidence, rows, s, chunkId)
      ensures found.Some? ==> Answers(evidence, rows, found.value, s, chunkId)
                              && found.value == Answer(evidence, rows, s, chunkId)
    {
      if id :| id in rows && Answers(evidence, rows, id, s, chunkId) {
        AnswerIsUnique(evidence, rows, s, chunkId, id);
        found := Some(id);
      } else {
        found := None;
      }
    }

    method CreateFromSelectedCandidate(s: Scope, chunkId: nat, newId: nat, now: int) returns (r: Result<Citation, Failure>)
      requires Valid()
      modifies this`rows
      ensures Valid()
      ensures r == Err(Invalid) <==> !old(Answered(evidence, rows, s, chunkId)) && !Selected(evidence, s, chunkId)
      ensures r.Ok? <==> old(Answered(evidence, rows, s, chunkId))
                         || (Selected(evidence, s, chunkId)
                             && old(Insertable(evidence, rows, newId, NewRow(evidence, s, chunkId, now))))
      ensures rows == if r.Ok? && !old(Answered(evidence, rows, s, chunkId)) && Selected(evidence, s, chunkId)
                      then old(rows)[newId := NewRow(evidence, s, chunkId, now)] else old(rows)
      ensures r.Ok? ==> Answered(evidence, rows, s, chunkId)
                        && r.value == CitationOf(evidence, rows, Answer(evidence, rows, s, chunkId))
    {
      var found := Lookup(s, chunkId);
      if found.Some? { return Ok(CitationOf(evidence, rows, found.value)); }
      if !Selected(evidence, s, chunkId) { return Err(Invalid); }
      var row := NewRow(evidence, s, chunkId, now);
      if !Insertable(evidence, rows, newId, row) { return Err(Unavailable); }
      NewRowIsShown(evidence, s, chunkId, now);
      InsertKeeps(evidence, rows, newId, row);
      rows := rows[newId := row];
      AnswerIsUnique(evidence, rows, s, chunkId, newId);
      return Ok(CitationOf(evidence, rows, newId));
    }

    method CreateFromSelectedCandidates(s: Scope, chunkIds: seq<nat>, newId: nat -> nat, now: int)
      returns (r: Result<seq<Citation>, Failure>)
      requires Valid()
      modifies this`rows
      ensures Valid()
      ensures r == Err(Invalid) <==> !ValidRequest(evidence, s, chunkIds)
      ensures r.Ok? <==> ValidRequest(evidence, s, chunkIds) && Batch(evidence, old(rows), s, chunkIds, newId, now).Some?
      ensures r.Err? ==> rows == old(rows)
      ensures r.Ok? ==> rows == Batch(evidence, old(rows), s, chunkIds, newId, now).value
      ensures r.Ok? ==> |r.value| == |chunkIds| && forall i :: 0 <= i < |chunkIds| ==>
                Answered(evidence, rows, s, chunkIds[i])
                && r.value[i] == CitationOf(evidence, rows, Answer(evidence, rows, s, chunkIds[i]))
    {
      if chunkIds == [] || !Distinct(chunkIds) { return Err(Invalid); }
      var ok := CheckSelected(s, chunkIds);
      if !ok { return Err(Invalid); }
      var missing := ListMissing(s, chunkIds);
      MissingMembers(evidence, rows, s, chunkIds);
      var inserted := InsertAll(evidence, rows, s, missing, newId, now);
      if inserted.None? { return Err(Unavailable); }
      BatchGrows(evidence, rows, s, chunkIds, newId, now);
      forall i | 0 <= i < |chunkIds| ensures Answered(evidence, inserted.value, s, chunkIds[i]) {
        EveryRequestIsAnswered(evidence, rows, s, chunkIds, newId, now, chunkIds[i]);
      }
      rows := inserted.value;
      var citations := Collect(s, chunkIds);
      return Ok(citations);
    }

    method CheckSelected(s: Scope, chunkIds: seq<nat>) returns (ok: bool)
      ensures ok <==> AllSelected(evidence, s, chunkIds)
    {
      var i := 0;
      while i < |chunkIds|
        invariant 0 <= i <= |chunkIds|
        invariant forall k :: 0 <= k < i ==> Selected(evidence, s, chunkIds[k])
      {
        if !Selected(evidence, s, chunkIds[i]) { return false; }
        i := i + 1;
      }
      return true;
    }

    method ListMissing(s: Scope, chunkIds: seq<nat>) returns (missing: seq<nat>)
      requires Valid()
      ensures missing == Missing(evidence, rows, s, chunkIds)
    {
      missing := [];
      var i := 0;
      while i < |chunkIds|
        invariant 0 <= i <= |chunkIds|
        invariant missing == Missing(evidence, rows, s, chunkIds[..i])
      {
        assert chunkIds[..i + 1][..i] == chunkIds[..i];
        var found := Lookup(s, chunkIds[i]);
        if found.None? { missing := missing + [chunkIds[i]]; }
        i := i + 1;
      }
      assert chunkIds[..i] == chunkIds;
    }

    // The final lookup, in the order of the request.
    method Collect(s: Scope, chunkIds: seq<nat>) returns (citations: seq<Citation>)
      requires Valid() && forall i :: 0 <= i < |chunkIds| ==> Answered(evidence, rows, s, chunkIds[i])
      ensures |citations| == |chunkIds| && forall i :: 0 <= i < |chunkIds| ==>
                citations[i] == CitationOf(evidence, rows, Answer(evidence, rows, s, chunkIds[i]))
    {
      citations := [];
      var i := 0;
      while i < |chunkIds|
        invariant 0 <= i <= |chunkIds| && |citations| == i
        invariant forall k :: 0 <= k < i ==> citations[k] == CitationOf(evidence, rows, Answer(evidence, rows, s, chunkIds[k]))
      {
        var found := Lookup(s, chunkIds[i]);
        citations := citations + [CitationOf(evidence, rows, found.value)];
        i := i + 1;
      }
    }
  }

  // ---- What creation guarantees ----

  // A successful batch only adds citations, keeps all keys, answers each
  // requested chunk with a citation tied to the chunk's own version, location
  // and project, and leaves the citation of a chunk that had one.
  lemma BatchIsFaithful(e: Evidence, rows: Rows, s: Scope, chunkIds: seq<nat>, newId: nat -> nat, now: int, c: nat)
    requires EvidenceKeyed(e) && Keyed(e, rows) && ValidRequest(e, s, chunkIds) && c in chunkIds
    requires Batch(e, rows, s, chunkIds, newId, now).Some?
    ensures var after := Batch(e, rows, s, chunkIds, newId, now).value;
            && Keyed(e, after) && (forall id :: id in rows ==> id in after && after[id] == rows[id])
            && Answered(e, after, s, c)
            && var row := after[Answer(e, after, s, c)];
               && row.projectId == s.projectId == e.traces[s.traceId] && row.traceId == s.traceId && row.chunkId == c
               && row.versionId == e.chunks[c].versionId && row.locationId == e.chunks[c].locationId
    ensures Answered(e, rows, s, c) ==>
              Answer(e, Batch(e, rows, s, chunkIds, newId, now).value, s, c) == Answer(e, rows, s, c)
  {
    BatchGrows(e, rows, s, chunkIds, newId, now);
    EveryRequestIsAnswered(e, rows, s, chunkIds, newId, now, c);
  }

  lemma {:induction false} NothingMissing(e: Evidence, rows: Rows, s: Scope, chunkIds: seq<nat>)
    requires forall i :: 0 <= i < |chunkIds| ==> Answered(e, rows, s, chunkIds[i])
    ensures Missing(e, rows, s, chunkIds) == []
  {
    if chunkIds != [] { NothingMissing(e, rows, s, chunkIds[..|chunkIds| - 1]); }
  }

  // Asking again changes nothing, whatever identifiers would be handed out.
  lemma BatchIsIdempotent(e: Evidence, rows: Rows, s: Scope, chunkIds: seq<nat>, newId: nat -> nat, now: int,
                          again: nat -> nat, later: int)
    requires EvidenceKeyed(e) && Keyed(e, rows) && ValidRequest(e, s, chunkIds)
    requires Batch(e, rows, s, chunkIds, newId, now).Some?
    ensures var after := Batch(e, rows, s, chunkIds, newId, now).value;
            Batch(e, after, s, chunkIds, again, later) == Some(after)
  {
    var after := Batch(e, rows, s, chunkIds, newId, now).value;
    forall i | 0 <= i < |chunkIds| ensures Answered(e, after, s, chunkIds[i]) {
      EveryRequestIsAnswered(e, rows, s, chunkIds, newId, now, chunkIds[i]);
    }
    NothingMissing(e, after, s, chunkIds);
  }

  // A batch of one does what the single operation does: nothing for a chunk
  // that has a citation, and otherwise one insertion under the same condition.
  lemma BatchOfOne(e: Evidence, rows: Rows, s: Scope, chunkId: nat, newId: nat -> nat, now: int)
    requires Selected(e, s, chunkId)
    ensures ValidRequest(e, s, [chunkId])
    ensures var row := NewRow(e, s, chunkId, now);
            Batch(e, rows, s, [chunkId], newId, now)
            == if Answered(e, rows, s, chunkId) then Some(rows)
               else if Insertable(e, rows, newId(0), row) then Some(rows[newId(0) := row])
               else None
  {
    var missing := Missing(e, rows, s, [chunkId]);
    assert [chunkId][..0] == [];
    assert Missing(e, rows, s, []) == [];
    if !Answered(e, rows, s, chunkId) {
      assert missing == [chunkId];
      assert InsertAll(e, rows, s, [chunkId][..0], newId, now) == Some(rows);
    }
  }

  // In a store filled only by these operations every citation is shown and
  // belongs to the project of its trace; then a valid request fails only for
  // an identifier that is not fresh.
  predicate ConsistentRow(e: Evidence, r: Row) {
    Shown(e, r) && r.traceId in e.traces && e.traces[r.traceId] == r.projectId
  }

  ghost predicate Consistent(e: Evidence, rows: Rows) {
    forall id :: id in rows ==> ConsistentRow(e, rows[id])
  }

  ghost predicate FreshIds(rows: Rows, newId: nat -> nat) {
    (forall i :: newId(i) !in rows) && forall i: nat, j: nat :: i < j ==> newId(i) != newId(j)
  }

  lemma {:induction false} FreshIdsInsert(e: Evidence, rows: Rows, s: Scope, missing: seq<nat>, newId: nat -> nat, now: int)
    requires EvidenceKeyed(e) && Keyed(e, rows) && Consistent(e, rows) && FreshIds(rows, newId)
    requires Distinct(missing) && AllSelected(e, s, missing) && forall c :: c in missing ==> !Answered(e, rows, s, c)
    ensures InsertAll(e, rows, s, missing, newId, now).Some?
  {
    if missing != [] {
      var n := |missing| - 1;
      assert missing[n] in missing;
      FreshIdsInsert(e, rows, s, missing[..n], newId, now);
      InsertAllGrows(e, rows, s, missing[..n], newId, now);
      var inserted := InsertAll(e, rows, s, missing[..n], newId, now).value;
      var row := NewRow(e, s, missing[n], now);
      NewRowIsShown(e, s, missing[n], now);
      forall other | other in inserted ensures !SameSlot(inserted[other], row) && other != newId(n) {
        if other in rows {
          FreeSlot(e, rows, s, missing[n], other, now);
        } else {
          assert IsNew(missing[..n], newId, other);
          var j :| 0 <= j < n && newId(j) == other;
          assert HasNew(e, inserted, s, missing[..n][j], newId(j), now);
        }
      }
    }
  }

  lemma FreeSlot(e: Evidence, rows: Rows, s: Scope, c: nat, other: nat, now: int)
    requires Consistent(e, rows) && other in rows && Selected(e, s, c) && !Answered(e, rows, s, c)
    ensures !SameSlot(rows[other], NewRow(e, s, c, now))
  {
    assert !Answers(e, rows, other, s, c);
  }

  lemma ValidRequestsSucceed(e: Evidence, rows: Rows, s: Scope, chunkIds: seq<nat>, newId: nat -> nat, now: int)
    requires EvidenceKeyed(e) && Keyed(e, rows) && Consistent(e, rows) && FreshIds(rows, newId)
    requires ValidRequest(e, s, chunkIds)
    ensures Batch(e, rows, s, chunkIds, newId, now).Some?
    ensures Consistent(e, Batch(e, rows, s, chunkIds, newId, now).value)
  {
    var missing := Missing(e, rows, s, chunkIds);
    MissingMembers(e, rows, s, chunkIds);
    FreshIdsInsert(e, rows, s, missing, newId, now);
    BatchGrows(e, rows, s, chunkIds, newId, now);
    var after := Batch(e, rows, s, chunkIds, newId, now).value;
    forall id | id in after ensures ConsistentRow(e, after[id]) {
      if id !in rows {
        assert IsNew(missing, newId, id);
        var j :| 0 <= j < |missing| && newId(j) == id;
        assert HasNew(e, after, s, missing[j], newId(j), now);
        NewRowIsShown(e, s, missing[j], now);
      }
    }
  }
}
