// What a citation says and which rows creation adds, written out over the
// tables of the evidence.
module CitationContents {
  import opened Basics
  import opened Citations

  // The chunk was selected by this trace, and the document it belongs to is of
  // the trace's own project.
  ghost predicate SelectedBy(e: Evidence, s: Scope, c: nat) {
    && (s.traceId, c) in e.candidates && e.candidates[(s.traceId, c)] != None
    && s.traceId in e.traces && e.traces[s.traceId] == s.projectId
    && exists v, d :: c in e.chunks && e.chunks[c].versionId == v && v in e.versions && e.versions[v] == d
                      && d in e.documents && e.documents[d].projectId == s.projectId
  }

  lemma SelectedExactly(e: Evidence, s: Scope, c: nat)
    ensures Selected(e, s, c) <==> SelectedBy(e, s, c)
  {
  }

  // The citation of a chunk: its text, the document it is a version of, and its
  // place in it, under the project and trace that asked.
  predicate Cites(a: Citation, e: Evidence, s: Scope, c: nat) {
    && c in e.chunks && e.chunks[c].versionId in e.versions && e.versions[e.chunks[c].versionId] in e.documents
    && e.chunks[c].locationId in e.locations
    && a.text == e.chunks[c].text && a.document == e.documents[e.versions[e.chunks[c].versionId]]
    && a.location == e.locations[e.chunks[c].locationId]
    && a.row.projectId == s.projectId && a.row.traceId == s.traceId && a.row.chunkId == c
    && a.row.versionId == e.chunks[c].versionId && a.row.locationId == e.chunks[c].locationId
    && a.document.projectId == s.projectId
  }

  lemma AnswerCites(e: Evidence, rows: Rows, id: nat, s: Scope, c: nat)
    requires Answers(e, rows, id, s, c)
    ensures Cites(CitationOf(e, rows, id), e, s, c)
    ensures CitationOf(e, rows, id).id == id && CitationOf(e, rows, id).row == rows[id]
  {
  }

  // Every citation that a batch answers is of the chunk that was asked for.
  lemma BatchCites(e: Evidence, rows: Rows, s: Scope, chunkIds: seq<nat>, newId: nat -> nat, now: int, c: nat)
    requires EvidenceKeyed(e) && Keyed(e, rows) && ValidRequest(e, s, chunkIds) && c in chunkIds
    requires Batch(e, rows, s, chunkIds, newId, now).Some?
    ensures var after := Batch(e, rows, s, chunkIds, newId, now).value;
            Answered(e, after, s, c) && Cites(CitationOf(e, after, Answer(e, after, s, c)), e, s, c)
  {
    EveryRequestIsAnswered(e, rows, s, chunkIds, newId, now, c);
    var after := Batch(e, rows, s, chunkIds, newId, now).value;
    AnswerCites(e, after, Answer(e, after, s, c), s, c);
  }

  // A row that a batch adds is of a requested chunk without a citation, of the
  // moment of the batch, and under one of the new identifiers.
  lemma AddedRowsAreRequested(e: Evidence, rows: Rows, s: Scope, chunkIds: seq<nat>, newId: nat -> nat, now: int, id: nat)
    returns (c: nat, i: nat)
    requires EvidenceKeyed(e) && Keyed(e, rows) && ValidRequest(e, s, chunkIds)
    requires Batch(e, rows, s, chunkIds, newId, now).Some?
    requires id in Batch(e, rows, s, chunkIds, newId, now).value && id !in rows
    ensures c in chunkIds && !Answered(e, rows, s, c) && newId(i) == id && c in e.chunks
    ensures Batch(e, rows, s, chunkIds, newId, now).value[id]
         == Row(s.projectId, s.traceId, c, e.chunks[c].versionId, e.chunks[c].locationId, now)
  {
    var missing := Missing(e, rows, s, chunkIds);
    BatchGrows(e, rows, s, chunkIds, newId, now);
    MissingMembers(e, rows, s, chunkIds);
    var after := Batch(e, rows, s, chunkIds, newId, now).value;
    assert IsNew(missing, newId, id);
    i :| 0 <= i < |missing| && newId(i) == id;
    c := missing[i];
    assert HasNew(e, after, s, missing[i], newId(i), now);
  }

  // The keys of the citations: a project, a candidate of the trace, a version
  // and a location that exist, and one citation per trace and chunk.
  lemma KeysExactly(e: Evidence, rows: Rows)
    ensures Keyed(e, rows) <==>
            && (forall id :: id in rows ==>
                  && rows[id].projectId in e.projects && (rows[id].traceId, rows[id].chunkId) in e.candidates
                  && rows[id].versionId in e.versions && rows[id].locationId in e.locations)
            && forall a, b :: a in rows && b in rows && a != b ==>
                 rows[a].traceId != rows[b].traceId || rows[a].chunkId != rows[b].chunkId
  {
  }

  // The identifiers to be handed out are new and different.
  predicate NewIds(rows: Rows, newId: nat -> nat, n: nat) {
    && (forall i :: 0 <= i < n ==> newId(i) !in rows)
    && forall i, j :: 0 <= i < j < n ==> newId(i) != newId(j)
  }

  // Among rows made only by these operations, a batch succeeds if and only if
  // the identifiers for its missing chunks are new and different.
  lemma {:induction false} InsertsExactly(e: Evidence, rows: Rows, s: Scope, missing: seq<nat>, newId: nat -> nat, now: int)
    requires EvidenceKeyed(e) && Keyed(e, rows) && Consistent(e, rows)
    requires ToInsert(e, rows, s, missing)
    ensures InsertAll(e, rows, s, missing, newId, now).Some? <==> NewIds(rows, newId, |missing|)
  {
    if missing != [] {
      var n := |missing| - 1;
      assert missing[n] in missing;
      InsertsExactly(e, rows, s, missing[..n], newId, now);
      if InsertAll(e, rows, s, missing[..n], newId, now).Some? {
        LastInserts(e, rows, s, missing, newId, now);
      }
    }
  }

  ghost predicate ToInsert(e: Evidence, rows: Rows, s: Scope, missing: seq<nat>) {
    && Distinct(missing) && AllSelected(e, s, missing) && (forall c :: c in missing ==> c in e.chunks)
    && forall c :: c in missing ==> !Answered(e, rows, s, c)
  }

  lemma LastInserts(e: Evidence, rows: Rows, s: Scope, missing: seq<nat>, newId: nat -> nat, now: int)
    requires EvidenceKeyed(e) && Keyed(e, rows) && Consistent(e, rows) && missing != [] && ToInsert(e, rows, s, missing)
    requires forall c :: c in missing[..|missing| - 1] ==> c in e.chunks
    requires NewIds(rows, newId, |missing| - 1) && InsertAll(e, rows, s, missing[..|missing| - 1], newId, now).Some?
    ensures InsertAll(e, rows, s, missing, newId, now).Some? <==> NewIds(rows, newId, |missing|)
  {
    var n := |missing| - 1;
    assert missing[n] in missing;
    InsertAllGrows(e, rows, s, missing[..n], newId, now);
    var inserted := InsertAll(e, rows, s, missing[..n], newId, now).value;
    NewRowIsShown(e, s, missing[n], now);
    SlotsAreFree(e, rows, inserted, s, missing, newId, now);
    UsedIds(e, rows, inserted, s, missing[..n], newId, now, newId(n));
    assert Insertable(e, inserted, newId(n), NewRow(e, s, missing[n], now)) <==> newId(n) !in inserted;
  }

  lemma SlotsAreFree(e: Evidence, rows: Rows, inserted: Rows, s: Scope, missing: seq<nat>, newId: nat -> nat, now: int)
    requires Consistent(e, rows) && missing != [] && ToInsert(e, rows, s, missing)
    requires forall c :: c in missing[..|missing| - 1] ==> c in e.chunks
    requires Grown(e, rows, inserted, s, missing[..|missing| - 1], newId, now)
    requires missing[|missing| - 1] in e.chunks
    ensures forall other :: other in inserted ==> !SameSlot(inserted[other], NewRow(e, s, missing[|missing| - 1], now))
  {
    var n := |missing| - 1;
    assert missing[n] in missing;
    forall other | other in inserted ensures !SameSlot(inserted[other], NewRow(e, s, missing[n], now)) {
      if other in rows {
        FreeSlot(e, rows, s, missing[n], other, now);
      } else {
        assert IsNew(missing[..n], newId, other);
        var j :| 0 <= j < n && newId(j) == other;
        assert HasNew(e, inserted, s, missing[..n][j], newId(j), now);
      }
    }
  }

  lemma UsedIds(e: Evidence, rows: Rows, after: Rows, s: Scope, chunkIds: seq<nat>, newId: nat -> nat, now: int, id: nat)
    requires (forall c :: c in chunkIds ==> c in e.chunks) && Grown(e, rows, after, s, chunkIds, newId, now)
    ensures id in after <==> id in rows || exists j :: 0 <= j < |chunkIds| && newId(j) == id
  {
    if exists j :: 0 <= j < |chunkIds| && newId(j) == id {
      var j :| 0 <= j < |chunkIds| && newId(j) == id;
      assert HasNew(e, after, s, chunkIds[j], newId(j), now);
    }
    if id in after && id !in rows {
      assert IsNew(chunkIds, newId, id);
    }
  }

  lemma BatchSucceedsExactly(e: Evidence, rows: Rows, s: Scope, chunkIds: seq<nat>, newId: nat -> nat, now: int)
    requires EvidenceKeyed(e) && Keyed(e, rows) && Consistent(e, rows) && ValidRequest(e, s, chunkIds)
    ensures Batch(e, rows, s, chunkIds, newId, now).Some? <==> NewIds(rows, newId, |Missing(e, rows, s, chunkIds)|)
  {
    MissingMembers(e, rows, s, chunkIds);
    InsertsExactly(e, rows, s, Missing(e, rows, s, chunkIds), newId, now);
  }
}
