/** Full-text search: the projection is exactly what the committed chunks give, so searching it
    is scanning the evidence. */
module Search {
  import opened Bytes
  import opened Evidence
  import opened Tables
  import opened Order
  import opened Storage
  import opened Journal

  // ORDER BY project_id, session_id, sequence, id.
  datatype Key = Key(project: string, session: string, sequence: int, id: string)

  datatype Reference = Reference(key: Key, exchange: string)

  predicate KeyLess(a: Key, b: Key) {
    || StringLess(a.project, b.project)
    || (a.project == b.project
        && (|| StringLess(a.session, b.session)
            || (a.session == b.session
                && (a.sequence < b.sequence || (a.sequence == b.sequence && StringLess(a.id, b.id))))))
  }

  lemma KeyOrder()
    ensures StrictOrder(KeyLess)
  {
    StringOrder();
    hide StringLess;
  }

  function KeyOf(row: EventRow): Key { Key(row.event.project, row.event.session, row.event.sequence, row.event.id) }

  // Events joined with a matching projection row.
  function MatchingKeys(db: Tables, query: string, o: Oracle): set<Key> {
    set i | 0 <= i < |db.fts| && db.fts[i].id in db.events && o.matches(query, db.fts[i].content) ::
      KeyOf(db.events[db.fts[i].id])
  }

  function ReferenceOf(db: Tables, key: Key): Reference {
    Reference(key, if key.id in db.events then db.events[key.id].event.exchange else "")
  }

  // At most `limit` references, least first.
  function Cut(db: Tables, keys: set<Key>, limit: nat): seq<Reference> {
    KeyOrder();
    var sorted := Sorted(keys, KeyLess);
    seq(Min(limit, |sorted|), i requires 0 <= i < |sorted| => ReferenceOf(db, sorted[i]))
  }

  method SearchEvents(s: Store, query: string, limit: int) returns (r: Result<seq<Reference>>)
    requires Schema(s.db)
    modifies s`faults
    ensures limit <= 0 <==> r == Err(BadLimit)
    ensures r.Err? ==> r.error == BadLimit || r.error == Fault
    ensures r.Ok? ==> limit > 0 && r.value == Cut(s.db, MatchingKeys(s.db, query, s.oracle), limit)
    ensures r.Ok? ==> RightMatches(s.db, r.value, query, limit, s.oracle)
    ensures Quiet(old(s.faults)) ==> Quiet(s.faults) && (limit > 0 ==> r.Ok?)
  {
    hide MatchingKeys, KeyLess, Ascending, RightMatches, Sorted, StrictOrder, Schema;
    if limit <= 0 { return Err(BadLimit); }
    CutMatches(s.db, query, s.oracle, limit);
    var failed := s.Faulty();
    if failed { return Err(Fault); }
    KeyOrder();
    var sorted := Sorted(MatchingKeys(s.db, query, s.oracle), KeyLess);
    var matches: seq<Reference> := [];
    var k: nat := 0;
    while k < |sorted| && k < limit
      invariant k <= |sorted| && k <= limit && |matches| == k
      invariant forall i :: 0 <= i < k ==> matches[i] == ReferenceOf(s.db, sorted[i])
      invariant Quiet(old(s.faults)) ==> Quiet(s.faults)
    {
      failed := s.Faulty();
      if failed { return Err(Fault); }
      matches, k := matches + [ReferenceOf(s.db, sorted[k])], k + 1;
    }
    r := Ok(matches);
    assert matches == Cut(s.db, MatchingKeys(s.db, query, s.oracle), limit);
  }

  // ---------- what is listed, and in which order ----------

  // A projection row of the event matches.
  ghost predicate Matching(db: Tables, id: string, query: string, o: Oracle) {
    id in db.events && exists i :: 0 <= i < |db.fts| && db.fts[i].id == id && o.matches(query, db.fts[i].content)
  }

  // A reference to a matching event, with its stored fields.
  ghost predicate IsMatch(db: Tables, x: Reference, query: string, o: Oracle) {
    && Matching(db, x.key.id, query, o)
    && var e := db.events[x.key.id].event;
    && x.key.project == e.project && x.key.session == e.session && x.key.sequence == e.sequence && x.exchange == e.exchange
  }

  // By project, within a project by session, within a session by sequence, and then by ID.
  ghost predicate Precedes(a: Event, b: Event) {
    && (a.project != b.project ==> StringLess(a.project, b.project))
    && (a.project == b.project && a.session != b.session ==> StringLess(a.session, b.session))
    && (a.project == b.project && a.session == b.session && a.sequence != b.sequence ==> a.sequence < b.sequence)
    && (a.project == b.project && a.session == b.session && a.sequence == b.sequence ==> StringLess(a.id, b.id))
  }

  ghost predicate Refers(db: Tables, x: Reference) { x.key.id in db.events }

  ghost predicate AllPrecede(db: Tables, references: seq<Reference>, e: Event)
  {
    forall i :: 0 <= i < |references| ==> Refers(db, references[i]) && Precedes(db.events[references[i].key.id].event, e)
  }

  // References to matching events, each before the next; and a match that is left out is left out by the limit, and comes
  // after all of them.
  ghost predicate RightMatches(db: Tables, r: seq<Reference>, query: string, limit: int, o: Oracle) {
    && |r| <= limit
    && (forall i :: 0 <= i < |r| ==> Refers(db, r[i]) && IsMatch(db, r[i], query, o))
    && (forall i :: 0 <= i < |r| ==> Refers(db, r[i]) && AllPrecede(db, r[..i], db.events[r[i].key.id].event))
    && (forall id :: Matching(db, id, query, o) ==>
          || (exists i :: 0 <= i < |r| && r[i].key.id == id)
          || (|r| == limit && AllPrecede(db, r, db.events[id].event)))
  }

  lemma MatchingIffKey(db: Tables, id: string, query: string, o: Oracle)
    requires Schema(db)
    ensures Matching(db, id, query, o) <==> id in db.events && KeyOf(db.events[id]) in MatchingKeys(db, query, o)
  {
  }

  lemma KeyMatches(db: Tables, key: Key, query: string, o: Oracle)
    requires Schema(db) && key in MatchingKeys(db, query, o)
    ensures IsMatch(db, ReferenceOf(db, key), query, o) && key == KeyOf(db.events[key.id])
  {
  }

  lemma LessPrecedes(a: EventRow, b: EventRow)
    requires KeyLess(KeyOf(a), KeyOf(b))
    ensures Precedes(a.event, b.event)
  {
    StringOrder();
    hide StringLess;
  }

  lemma CutMatches(db: Tables, query: string, o: Oracle, limit: nat)
    requires Schema(db) && limit > 0
    ensures RightMatches(db, Cut(db, MatchingKeys(db, query, o), limit), query, limit, o)
  {
    var keys := MatchingKeys(db, query, o);
    var r := Cut(db, keys, limit);
    CutIsLeast(db, keys, limit);
    CutRefers(db, keys, limit);
    hide MatchingKeys, Cut, KeyLess, Precedes, Matching, IsMatch, KeyOf, ReferenceOf;
    forall i | 0 <= i < |r| ensures IsMatch(db, r[i], query, o) && Refers(db, r[i]) && r[i].key == KeyOf(db.events[r[i].key.id]) {
      KeyMatches(db, r[i].key, query, o);
      MatchHasEvent(db, r[i], query, o);
    }
    forall i | 0 <= i < |r| ensures AllPrecede(db, r[..i], db.events[r[i].key.id].event) {
      forall h | 0 <= h < i ensures Precedes(db.events[r[h].key.id].event, db.events[r[i].key.id].event) {
        LessPrecedes(db.events[r[h].key.id], db.events[r[i].key.id]);
      }
    }
    forall id | Matching(db, id, query, o)
      ensures (exists i :: 0 <= i < |r| && r[i].key.id == id) || (|r| == limit && id in db.events && AllPrecede(db, r, db.events[id].event))
    {
      MatchingIffKey(db, id, query, o);
      KeyHasId(db, id);
      var key := KeyOf(db.events[id]);
      if forall i :: 0 <= i < |r| ==> r[i].key != key {
        CutLeavesOut(db, keys, limit, key);
        forall i | 0 <= i < |r| ensures Precedes(db.events[r[i].key.id].event, db.events[id].event) {
          LessPrecedes(db.events[r[i].key.id], db.events[id]);
        }
      }
    }
    RightlyMatched(db, r, query, limit, o);
  }

  lemma RightlyMatched(db: Tables, r: seq<Reference>, query: string, limit: int, o: Oracle)
    requires |r| <= limit && (forall i :: 0 <= i < |r| ==> Refers(db, r[i]) && IsMatch(db, r[i], query, o))
    requires forall i :: 0 <= i < |r| ==> Refers(db, r[i]) && AllPrecede(db, r[..i], db.events[r[i].key.id].event)
    requires forall id :: Matching(db, id, query, o) ==>
               || (exists i :: 0 <= i < |r| && r[i].key.id == id)
               || (|r| == limit && id in db.events && AllPrecede(db, r, db.events[id].event))
    ensures RightMatches(db, r, query, limit, o)
  {
    hide IsMatch, AllPrecede;
  }

  lemma KeyHasId(db: Tables, id: string)
    requires Schema(db) && id in db.events
    ensures KeyOf(db.events[id]).id == id
  {
  }

  lemma MatchHasEvent(db: Tables, x: Reference, query: string, o: Oracle)
    requires IsMatch(db, x, query, o)
    ensures Refers(db, x)
  {
  }

  lemma CutRefers(db: Tables, keys: set<Key>, limit: nat)
    ensures forall i :: 0 <= i < |Cut(db, keys, limit)| ==> Cut(db, keys, limit)[i] == ReferenceOf(db, Cut(db, keys, limit)[i].key)
  {
    hide KeyLess;
  }

  // A key that is left out was left out by the limit.
  lemma CutLeavesOut(db: Tables, keys: set<Key>, limit: nat, key: Key)
    requires key in keys && forall i :: 0 <= i < |Cut(db, keys, limit)| ==> Cut(db, keys, limit)[i].key != key
    ensures |Cut(db, keys, limit)| == limit
  {
    KeyOrder();
    hide KeyLess, Ascending;
    var sorted := Sorted(keys, KeyLess);
    assert key in sorted;
    var m :| 0 <= m < |sorted| && sorted[m] == key;
    assert forall i :: 0 <= i < |Cut(db, keys, limit)| ==> Cut(db, keys, limit)[i].key == sorted[i];
  }

  // ---------- the direct scan ----------

  // Some chunk of the event is valid UTF-8 and matches.
  ghost predicate ChunkMatches(db: Tables, id: string, query: string, o: Oracle)
    requires id in db.chunks
  {
    exists i :: i in db.chunks[id] && o.validUtf8(db.chunks[id][i]) && o.matches(query, db.chunks[id][i])
  }

  ghost function ScannedKeys(db: Tables, query: string, o: Oracle): set<Key> {
    set id | id in db.events && id in db.chunks && ChunkMatches(db, id, query, o) :: KeyOf(db.events[id])
  }

  lemma {:induction false} FtsOfMembers(fts: seq<FtsRow>, id: string, row: FtsRow)
    ensures row in FtsOf(fts, id) <==> row in fts && row.id == id
  {
    if fts != [] {
      var k := |fts| - 1;
      FtsOfMembers(fts[..k], id, row);
      assert fts == fts[..k] + [fts[k]];
    }
  }

  lemma {:induction false} IndexedMembers(o: Oracle, event: Event, chunks: seq<bytes>, row: FtsRow)
    ensures row in Indexed(o, event, chunks)
            <==> row == FtsRowFor(event, row.content) && row.content in chunks && o.validUtf8(row.content)
  {
    if chunks != [] {
      var k := |chunks| - 1;
      IndexedMembers(o, event, chunks[..k], row);
      assert chunks == chunks[..k] + [chunks[k]];
    }
  }

  // A content is among an event's projection rows exactly when it is one of its valid chunks.
  lemma ProjectedIffChunk(db: Tables, id: string, content: bytes, o: Oracle)
    requires EvidenceInv(db, o) && id in db.events
    ensures (exists i :: 0 <= i < |db.fts| && db.fts[i].id == id && db.fts[i].content == content)
            <==> o.validUtf8(content) && exists i :: i in db.chunks[id] && db.chunks[id][i] == content
  {
    assert EventHolds(db, id, o);
    hide EventHolds;
    if k :| 0 <= k < |db.fts| && db.fts[k].id == id && db.fts[k].content == content {
      ProjectionIsChunk(db, id, k, o);
    }
    if i :| o.validUtf8(content) && i in db.chunks[id] && db.chunks[id][i] == content {
      ChunkProjected(db, id, i, o);
    }
  }

  lemma ProjectionIsChunk(db: Tables, id: string, k: nat, o: Oracle)
    requires id in db.events && id in db.chunks && EventHolds(db, id, o)
    requires k < |db.fts| && db.fts[k].id == id
    ensures o.validUtf8(db.fts[k].content) && exists i :: i in db.chunks[id] && db.chunks[id][i] == db.fts[k].content
  {
    var event, chunks, row := db.events[id].event, EventChunks(db, id), db.fts[k];
    FtsOfMembers(db.fts, id, row);
    IndexedMembers(o, event, chunks, row);
    var i :| 0 <= i < |chunks| && chunks[i] == row.content;
    assert i in db.chunks[id];
  }

  lemma ChunkProjected(db: Tables, id: string, i: int, o: Oracle)
    requires id in db.events && id in db.chunks && EventHolds(db, id, o)
    requires i in db.chunks[id] && o.validUtf8(db.chunks[id][i])
    ensures exists k :: 0 <= k < |db.fts| && db.fts[k].id == id && db.fts[k].content == db.chunks[id][i]
  {
    var event, chunks, content := db.events[id].event, EventChunks(db, id), db.chunks[id][i];
    assert content == chunks[i];
    var row := FtsRowFor(event, content);
    IndexedMembers(o, event, chunks, row);
    FtsOfMembers(db.fts, id, row);
  }

  // Every projection row is the row of a stored, valid chunk of its event, with the event's own keys.
  lemma ProjectionTagged(db: Tables, o: Oracle, i: nat)
    requires EvidenceInv(db, o) && i < |db.fts|
    ensures var row := db.fts[i];
            && row.id in db.events && row.id in db.chunks
            && (exists k :: k in db.chunks[row.id] && db.chunks[row.id][k] == row.content && o.validUtf8(row.content))
            && var e := db.events[row.id].event;
            row.project == e.project && row.session == e.session && row.exchange == e.exchange
  {
    hide *;
    var row := db.fts[i];
    RowHasEvent(db, o, i);
    var id := row.id;
    var event, chunks := db.events[id].event, EventChunks(db, id);
    FtsOfMembers(db.fts, id, row);
    IndexedMembers(o, event, chunks, row);
    TaggedWith(event, row);
    var k :| 0 <= k < |chunks| && chunks[k] == row.content;
    RowAt(chunks, k);
  }

  lemma RowHasEvent(db: Tables, o: Oracle, i: nat)
    requires EvidenceInv(db, o) && i < |db.fts|
    ensures var id := db.fts[i].id;
            && id in db.events && id in db.chunks && db.chunks[id] == RowsOf(EventChunks(db, id))
            && FtsOf(db.fts, id) == Indexed(o, db.events[id].event, EventChunks(db, id))
  {
    assert EventHolds(db, db.fts[i].id, o);
    hide EventChunks, RowsOf, FtsOf, Indexed;
  }

  lemma TaggedWith(event: Event, row: FtsRow)
    requires row == FtsRowFor(event, row.content)
    ensures row.project == event.project && row.session == event.session && row.exchange == event.exchange
  {
  }

  lemma RowAt(chunks: seq<bytes>, k: nat)
    requires k < |chunks|
    ensures k in RowsOf(chunks) && RowsOf(chunks)[k] == chunks[k]
  {
  }

  // Main result on search: in a state that runs can reach, searching the projection is scanning the chunks.
  lemma SearchIsScan(db: Tables, query: string, o: Oracle)
    requires EvidenceInv(db, o)
    ensures MatchingKeys(db, query, o) == ScannedKeys(db, query, o)
  {
    hide EventHolds;
    forall id | id in db.events
      ensures ChunkMatches(db, id, query, o) <==>
                exists i :: 0 <= i < |db.fts| && db.fts[i].id == id && o.matches(query, db.fts[i].content)
    {
      if i :| i in db.chunks[id] && o.validUtf8(db.chunks[id][i]) && o.matches(query, db.chunks[id][i]) {
        ProjectedIffChunk(db, id, db.chunks[id][i], o);
      }
      if i :| 0 <= i < |db.fts| && db.fts[i].id == id && o.matches(query, db.fts[i].content) {
        ProjectedIffChunk(db, id, db.fts[i].content, o);
      }
    }
    forall key ensures key in MatchingKeys(db, query, o) <==> key in ScannedKeys(db, query, o) {
    }
  }

  // What the cut returns: each match once, in order, and none that is left out precedes one that is in.
  lemma CutIsLeast(db: Tables, keys: set<Key>, limit: nat)
    ensures var r := Cut(db, keys, limit);
            && |r| == Min(limit, |keys|)
            && (forall i :: 0 <= i < |r| ==> r[i].key in keys)
            && (forall i, j :: 0 <= i < j < |r| ==> KeyLess(r[i].key, r[j].key))
            && (forall key, i :: key in keys && 0 <= i < |r| && (forall j :: 0 <= j < |r| ==> r[j].key != key) ==>
                  KeyLess(r[i].key, key))
  {
    KeyOrder();
    var sorted, r := Sorted(keys, KeyLess), Cut(db, keys, limit);
    hide KeyLess;
    forall i | 0 <= i < |r| ensures r[i].key == sorted[i] && r[i].key in keys {
      assert sorted[i] in sorted;
    }
    forall key, i | key in keys && 0 <= i < |r| && (forall j :: 0 <= j < |r| ==> r[j].key != key)
      ensures KeyLess(r[i].key, key)
    {
      assert key in sorted;
      assert forall j :: 0 <= j < |r| ==> sorted[j] == r[j].key != key;
      var m :| 0 <= m < |sorted| && sorted[m] == key;
    }
  }
}
