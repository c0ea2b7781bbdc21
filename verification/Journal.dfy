/** Whole runs of the store: begin, append, complete, mark and recover steps in any order, any of
    which may fail or be cut short by a crash, since each commits in one transaction or not at all. */
module Journal {
  import opened Bytes
  import opened Evidence
  import opened Streams
  import opened Tables
  import opened Storage
  import opened Attempts
  import Fidelity

  datatype Action =
    | Begin(attempt: Attempt)
    | Append(event: Event, now: Instant, inbound: bytes, plan: seq<ReadStep>, declared: uint64)
    | Complete(id: string, now: Instant)
    | Mark(id: string, stage: Stage, now: Instant)
    | Recover(now: Instant)
    | Aborted

  // What one transaction does to the committed tables. A failed or interrupted one does nothing.
  ghost predicate Takes(db: Tables, after: Tables, action: Action, o: Oracle) {
    match action
    case Begin(a) =>
      Beginnable(db, a) && after == if a.id in db.attempts then db else WithAttempt(db, AsPending(a))
    case Append(event, now, inbound, plan, declared) =>
      event.id !in db.events && Appended(db, after, event, now, inbound, plan, declared, o)
    case Complete(id, now) =>
      && id in db.attempts && db.attempts[id].status == Pending && Verified(db, db.attempts[id], o)
      && after == WithAttempt(db, AsCompleted(db.attempts[id], now))
    case Mark(id, stage, now) =>
      && id in db.attempts && db.attempts[id].status == Pending && ValidStage(stage)
      && after == WithAttempt(db, AsIncomplete(db.attempts[id], stage, now))
    case Recover(now) => after == Recovered(db, o, now)
    case Aborted => after == db
  }

  ghost predicate IsPath(states: seq<Tables>, actions: seq<Action>, o: Oracle) {
    && |states| == |actions| + 1
    && forall i :: 0 <= i < |actions| ==> Takes(states[i], states[i + 1], actions[i], o)
  }

  ghost predicate IsRun(states: seq<Tables>, actions: seq<Action>, o: Oracle) {
    IsPath(states, actions, o) && states[0] == EMPTY
  }

  // Any number of transactions lead from one state to the other.
  ghost predicate Through(before: Tables, after: Tables, o: Oracle) {
    exists states, actions :: IsPath(states, actions, o) && states[0] == before && states[|actions|] == after
  }

  // ---------- the invariant ----------

  // The chunks of an event, in index order.
  ghost function EventChunks(db: Tables, id: string): seq<bytes>
    requires id in db.chunks
  {
    RowSeq(db.chunks[id], |db.chunks[id]|)
  }

  function FtsOf(fts: seq<FtsRow>, id: string): seq<FtsRow> {
    if fts == [] then []
    else FtsOf(fts[..|fts| - 1], id) + if fts[|fts| - 1].id == id then [fts[|fts| - 1]] else []
  }

  // An event's rows are numbered without gaps, add up to its size, and have its hash;
  // and its projection rows are those its chunks give.
  ghost predicate EventHolds(db: Tables, id: string, o: Oracle)
    requires id in db.events && id in db.chunks
  {
    var row, chunks := db.events[id], EventChunks(db, id);
    && row.event.id == id
    && db.chunks[id] == RowsOf(chunks) && Fidelity.Nonempty(chunks)
    && |Join(chunks)| == row.declared as nat == row.actual as nat
    && row.sha256 == o.sha256(Join(chunks))
    && FtsOf(db.fts, id) == Indexed(o, row.event, chunks)
  }

  ghost predicate EvidenceInv(db: Tables, o: Oracle) {
    && db.chunks.Keys == db.events.Keys
    && (forall id :: id in db.events ==> EventHolds(db, id, o))
    && (forall i :: 0 <= i < |db.fts| ==> db.fts[i].id in db.events)
  }

  // Attempts are well formed, and a completed one's evidence agrees with it.
  ghost predicate AttemptInv(db: Tables, o: Oracle) {
    forall id :: id in db.attempts ==> AttemptHolds(db, db.attempts[id], id, o)
  }

  ghost predicate AttemptHolds(db: Tables, a: Attempt, id: string, o: Oracle) {
    a.id == id && a.status != Unset && ValidAttempt(a) && (a.status == Completed ==> Verified(db, a, o))
  }

  ghost predicate Inv(db: Tables, o: Oracle) { EvidenceInv(db, o) && AttemptInv(db, o) }

  // What no step takes back: evidence rows stay, attempts keep their metadata, settled attempts stay settled.
  ghost predicate Preserved(before: Tables, after: Tables) {
    && (forall id :: id in before.events && id in before.chunks ==>
          id in after.events && id in after.chunks
          && after.events[id] == before.events[id] && after.chunks[id] == before.chunks[id])
    && (forall id :: id in before.attempts ==>
          id in after.attempts && SameAttempt(after.attempts[id], before.attempts[id]))
    && (forall id :: id in before.attempts && before.attempts[id].status != Pending ==>
          after.attempts[id] == before.attempts[id])
  }

  // ---------- one step ----------

  lemma {:induction false} RowCount(chunks: seq<bytes>)
    ensures |RowsOf(chunks)| == |chunks| && RowSeq(RowsOf(chunks), |RowsOf(chunks)|) == chunks
  {
    if chunks != [] {
      var k := |chunks| - 1;
      RowCount(chunks[..k]);
      RowsOfSnoc(chunks[..k], chunks[k]);
      assert chunks == chunks[..k] + [chunks[k]];
    }
    RowSeqOfRowsOf(chunks);
  }

  lemma {:induction false} FtsOfAppend(a: seq<FtsRow>, b: seq<FtsRow>, id: string)
    ensures FtsOf(a + b, id) == FtsOf(a, id) + FtsOf(b, id)
  {
    if b == [] {
      assert a + b == a;
    } else {
      var k := |b| - 1;
      assert (a + b)[..|a + b| - 1] == a + b[..k];
      FtsOfAppend(a, b[..k], id);
    }
  }

  lemma {:induction false} FtsOfIndexed(o: Oracle, event: Event, chunks: seq<bytes>, id: string)
    ensures FtsOf(Indexed(o, event, chunks), id) == if id == event.id then Indexed(o, event, chunks) else []
  {
    if chunks != [] {
      var k := |chunks| - 1;
      FtsOfIndexed(o, event, chunks[..k], id);
      var last := if o.validUtf8(chunks[k]) then [FtsRowFor(event, chunks[k])] else [];
      FtsOfAppend(Indexed(o, event, chunks[..k]), last, id);
      FtsOfOne(FtsRowFor(event, chunks[k]), id);
    }
  }

  lemma {:induction false} IndexedIds(o: Oracle, event: Event, chunks: seq<bytes>)
    ensures forall i :: 0 <= i < |Indexed(o, event, chunks)| ==> Indexed(o, event, chunks)[i].id == event.id
  {
    if chunks != [] {
      IndexedIds(o, event, chunks[..|chunks| - 1]);
    }
  }

  lemma FtsOfOne(row: FtsRow, id: string)
    ensures FtsOf([row], id) == if row.id == id then [row] else []
  {
    assert [row][..0] == [];
  }

  lemma {:induction false} FtsOfAbsent(fts: seq<FtsRow>, id: string)
    requires forall i :: 0 <= i < |fts| ==> fts[i].id != id
    ensures FtsOf(fts, id) == []
  {
    if fts != [] {
      FtsOfAbsent(fts[..|fts| - 1], id);
    }
  }

  lemma SchemaHolds(db: Tables, o: Oracle)
    requires Inv(db, o)
    ensures Schema(db)
  {
    hide Verified;
  }

  // A new event holds, and every other event goes on holding.
  lemma AppendHolds(db: Tables, after: Tables, action: Action, o: Oracle)
    requires action.Append? && EvidenceInv(db, o) && Takes(db, after, action, o)
    ensures EvidenceInv(after, o)
  {
    var chunks := Deliver(action.inbound, action.plan, action.declared as nat).chunks;
    var event := Received(action.event, action.now);
    DeliveredSizes(action.inbound, action.plan, action.declared as nat);
    AppendedEvent(db, event, action.declared, chunks, o);
    AppendKeeps(db, event, action.declared, chunks, o);
    hide EventHolds, Deliver;
  }

  lemma AppendedEvent(db: Tables, event: Event, declared: uint64, chunks: seq<bytes>, o: Oracle)
    requires event.id !in db.events && Fidelity.Nonempty(chunks) && |Join(chunks)| == declared as nat
    requires forall i :: 0 <= i < |db.fts| ==> db.fts[i].id in db.events
    ensures var after := WithEvent(db, event, declared, chunks, o);
            event.id in after.events && event.id in after.chunks && EventHolds(after, event.id, o)
  {
    var after := WithEvent(db, event, declared, chunks, o);
    RowCount(chunks);
    assert after.chunks[event.id] == RowsOf(chunks);
    FtsOfAbsent(db.fts, event.id);
    FtsOfAppend(db.fts, Indexed(o, event, chunks), event.id);
    FtsOfIndexed(o, event, chunks, event.id);
  }

  lemma AppendKeeps(db: Tables, event: Event, declared: uint64, chunks: seq<bytes>, o: Oracle)
    requires EvidenceInv(db, o) && event.id !in db.events
    ensures var after := WithEvent(db, event, declared, chunks, o);
            && after.chunks.Keys == after.events.Keys == db.events.Keys + {event.id}
            && (forall id :: id in db.events ==> EventHolds(after, id, o))
            && (forall i :: 0 <= i < |after.fts| ==> after.fts[i].id in after.events)
  {
    hide EventHolds, Indexed, FtsOf;
    var after := WithEvent(db, event, declared, chunks, o);
    forall id | id in db.events ensures EventHolds(after, id, o) {
      FtsOfAppend(db.fts, Indexed(o, event, chunks), id);
      FtsOfIndexed(o, event, chunks, id);
      SameEventHolds(db, after, id, o);
    }
    IndexedIds(o, event, chunks);
  }

  lemma SameEventHolds(db: Tables, after: Tables, id: string, o: Oracle)
    requires id in db.events && id in db.chunks && EventHolds(db, id, o)
    requires id in after.events && id in after.chunks
    requires after.events[id] == db.events[id] && after.chunks[id] == db.chunks[id]
    requires FtsOf(after.fts, id) == FtsOf(db.fts, id)
    ensures EventHolds(after, id, o)
  {
  }

  // Evidence that is still there still verifies.
  lemma VerifiedKept(before: Tables, after: Tables, a: Attempt, b: Attempt, o: Oracle)
    requires Preserved(before, after) && Verified(before, a, o) && SameAttempt(a, b)
    ensures Verified(after, b, o)
  {
  }

  lemma StepPreserves(db: Tables, after: Tables, action: Action, o: Oracle)
    requires Schema(db) && Takes(db, after, action, o)
    ensures Preserved(db, after)
  {
    if action.Append? {
      AppendPreserves(db, after, action, o);
    } else {
      hide Verified;
    }
  }

  lemma AppendPreserves(db: Tables, after: Tables, action: Action, o: Oracle)
    requires action.Append? && Takes(db, after, action, o)
    ensures Preserved(db, after)
  {
    hide Deliver, Join, Indexed;
  }

  // A step changes an attempt only to settle it, and completes only what verifies.
  lemma StepAttempts(db: Tables, after: Tables, action: Action, o: Oracle)
    requires Schema(db) && Takes(db, after, action, o)
    ensures forall id :: id in after.attempts ==>
              || (id in db.attempts && after.attempts[id] == db.attempts[id])
              || Written(db, after.attempts[id], id, o)
  {
    hide Verified, Deliver, Join, Indexed;
  }

  ghost predicate Written(db: Tables, a: Attempt, id: string, o: Oracle) {
    && a.id == id && a.status != Unset
    && (ValidAttempt(a) || (id in db.attempts && SameAttempt(db.attempts[id], a)))
    && (a.status == Completed ==> id in db.attempts && SameAttempt(db.attempts[id], a) && Verified(db, db.attempts[id], o))
  }

  // Every step keeps the invariant, and takes nothing back.
  lemma StepKeeps(db: Tables, after: Tables, action: Action, o: Oracle)
    requires Inv(db, o) && Takes(db, after, action, o)
    ensures Inv(after, o) && Preserved(db, after)
  {
    SchemaHolds(db, o);
    StepPreserves(db, after, action, o);
    StepKeepsAttempts(db, after, action, o);
    if action.Append? {
      AppendHolds(db, after, action, o);
    } else {
      StepKeepsEvidence(db, after, action, o);
    }
  }

  lemma StepKeepsEvidence(db: Tables, after: Tables, action: Action, o: Oracle)
    requires EvidenceInv(db, o) && !action.Append? && Takes(db, after, action, o)
    ensures EvidenceInv(after, o)
  {
    hide EventHolds, Verified;
    assert after.events == db.events && after.chunks == db.chunks && after.fts == db.fts;
    forall id | id in after.events ensures EventHolds(after, id, o) {
      SameEventHolds(db, after, id, o);
    }
  }

  lemma StepKeepsAttempts(db: Tables, after: Tables, action: Action, o: Oracle)
    requires Schema(db) && AttemptInv(db, o) && Preserved(db, after) && Takes(db, after, action, o)
    ensures AttemptInv(after, o)
  {
    StepAttempts(db, after, action, o);
    hide Verified, Takes, Preserved;
    forall id | id in after.attempts ensures AttemptHolds(after, after.attempts[id], id, o) {
      if id in db.attempts && db.attempts[id].status == Completed && after.attempts[id] == db.attempts[id] {
        VerifiedKept(db, after, db.attempts[id], after.attempts[id], o);
      } else if after.attempts[id].status == Completed {
        assert Written(db, after.attempts[id], id, o);
        VerifiedKept(db, after, db.attempts[id], after.attempts[id], o);
      }
      assert id in db.attempts ==> AttemptHolds(db, db.attempts[id], id, o);
    }
  }

  // ---------- whole runs ----------

  lemma EmptyHolds(o: Oracle)
    ensures Inv(EMPTY, o)
  {
  }

  lemma RunKeeps(states: seq<Tables>, actions: seq<Action>, o: Oracle, i: nat)
    requires IsRun(states, actions, o) && i < |states|
    ensures Inv(states[i], o)
  {
    EmptyHolds(o);
    PathKeeps(states, actions, o, i);
  }

  lemma PreservedTransitive(a: Tables, b: Tables, c: Tables)
    requires Preserved(a, b) && Preserved(b, c) && a.chunks.Keys == a.events.Keys
    ensures Preserved(a, c)
  {
  }

  // Over any stretch of a run, evidence and settled attempts stay as they are.
  lemma RunPreserves(states: seq<Tables>, actions: seq<Action>, o: Oracle, i: nat, j: nat)
    requires IsRun(states, actions, o) && i <= j < |states|
    ensures Preserved(states[i], states[j])
  {
    hide Takes, Preserved, Inv;
    RunKeeps(states, actions, o, i);
    assert IsPath(states[i..], actions[i..], o);
    PathKeeps(states[i..], actions[i..], o, j - i);
  }

  lemma PreservedReflexive(a: Tables)
    ensures Preserved(a, a)
  {
  }

  // The evidence of an attempt is this payload: metadata, size, hash, canonical chunks, and every page of it.
  ghost predicate HoldsPayload(db: Tables, a: Attempt, payload: bytes, o: Oracle) {
    && a.event.id in db.events && a.event.id in db.chunks
    && var row, rows := db.events[a.event.id], db.chunks[a.event.id];
    && row == EventRow(a.event, a.declared, a.declared, o.sha256(payload))
    && |payload| == a.declared as nat && rows == RowsOf(Split(payload))
    && Fidelity.ServesExactly(rows, payload)
  }

  lemma VerifiedHolds(db: Tables, a: Attempt, o: Oracle) returns (payload: bytes)
    requires Verified(db, a, o)
    ensures HoldsPayload(db, a, payload, o)
  {
    var row, rows := db.events[a.event.id], db.chunks[a.event.id];
    payload := CanonicalIsSplit(rows, row.declared as nat);
    Fidelity.CanonicalServes(payload);
    JoinSplit(payload);
    RowSeqOfRowsOf(Split(payload));
    assert Stored(rows, row.declared as nat) == payload;
  }

  // Main result on runs: once completed, an attempt is completed in every later state with its row
  // unchanged, and there is one payload that its event holds then and for ever after.
  lemma CompletedStaysExact(states: seq<Tables>, actions: seq<Action>, o: Oracle, i: nat, id: string)
    returns (payload: bytes)
    requires IsRun(states, actions, o) && i < |states|
    requires id in states[i].attempts && states[i].attempts[id].status == Completed
    ensures forall j :: i <= j < |states| ==>
              id in states[j].attempts && states[j].attempts[id] == states[i].attempts[id]
              && HoldsPayload(states[j], states[i].attempts[id], payload, o)
  {
    hide Verified, Takes;
    RunKeeps(states, actions, o, i);
    var a := states[i].attempts[id];
    assert AttemptHolds(states[i], a, id, o);
    payload := VerifiedHolds(states[i], a, o);
    forall j | i <= j < |states|
      ensures id in states[j].attempts && states[j].attempts[id] == a && HoldsPayload(states[j], a, payload, o)
    {
      RunPreserves(states, actions, o, i, j);
    }
  }

  // ---------- paths between two states ----------

  lemma ThroughNothing(db: Tables, o: Oracle)
    ensures Through(db, db, o)
  {
    assert IsPath([db], [], o);
  }

  lemma ThroughStep(before: Tables, middle: Tables, after: Tables, action: Action, o: Oracle)
    requires Through(before, middle, o) && Takes(middle, after, action, o)
    ensures Through(before, after, o)
  {
    hide Takes;
    var states, actions :| IsPath(states, actions, o) && states[0] == before && states[|actions|] == middle;
    var states', actions' := states + [after], actions + [action];
    forall i | 0 <= i < |actions'| ensures Takes(states'[i], states'[i + 1], actions'[i], o) {
      if i < |actions| {
        assert states'[i] == states[i] && states'[i + 1] == states[i + 1];
      }
    }
    assert IsPath(states', actions', o);
  }

  lemma {:induction false} PathThrough(before: Tables, states: seq<Tables>, actions: seq<Action>, o: Oracle, k: nat)
    requires IsPath(states, actions, o) && k < |states| && Through(before, states[0], o)
    ensures Through(before, states[k], o)
  {
    if k > 0 {
      PathThrough(before, states, actions, o, k - 1);
      ThroughStep(before, states[k - 1], states[k], actions[k - 1], o);
    }
  }

  lemma ThroughBoth(a: Tables, b: Tables, c: Tables, o: Oracle)
    requires Through(a, b, o) && Through(b, c, o)
    ensures Through(a, c, o)
  {
    var states, actions :| IsPath(states, actions, o) && states[0] == b && states[|actions|] == c;
    PathThrough(a, states, actions, o, |actions|);
  }

  lemma {:induction false} PathKeeps(states: seq<Tables>, actions: seq<Action>, o: Oracle, k: nat)
    requires IsPath(states, actions, o) && k < |states| && Inv(states[0], o)
    ensures Inv(states[k], o) && Preserved(states[0], states[k])
  {
    hide Takes, Preserved, EvidenceInv, AttemptInv;
    if k == 0 {
      PreservedReflexive(states[0]);
    } else {
      PathKeeps(states, actions, o, k - 1);
      StepKeeps(states[k - 1], states[k], actions[k - 1], o);
      SchemaHolds(states[0], o);
      PreservedTransitive(states[0], states[k - 1], states[k]);
    }
  }

  // Whatever transactions come between, the invariant and the evidence stay.
  lemma ThroughKeeps(before: Tables, after: Tables, o: Oracle)
    requires Inv(before, o) && Through(before, after, o)
    ensures Inv(after, o) && Preserved(before, after)
  {
    var states, actions :| IsPath(states, actions, o) && states[0] == before && states[|actions|] == after;
    PathKeeps(states, actions, o, |actions|);
  }

  // ---------- recovery ----------

  // Recovery settles everything: nothing is left pending, what was settled and all evidence stays,
  // a pending attempt is completed exactly when its own completion would have succeeded, and a
  // second recovery has nothing to do.
  lemma RecoverySettlesAll(db: Tables, o: Oracle, now: Instant, later: Instant)
    requires Schema(db)
    ensures PendingIds(Recovered(db, o, now)) == {}
    ensures Preserved(db, Recovered(db, o, now))
    ensures forall id :: id in PendingIds(db) ==>
              var a := Recovered(db, o, now).attempts[id];
              && (a.status == Completed <==> Takes(db, WithAttempt(db, AsCompleted(db.attempts[id], now)), Complete(id, now), o))
              && (a.status == Completed || (a.status == Incomplete && a.failureStage == Some(AppendStage)))
              && a.completedAt == Some(now) && (a.status == Completed ==> a.failureStage == None) && SameAttempt(a, db.attempts[id])
    ensures Recovered(Recovered(db, o, now), o, later) == Recovered(db, o, now)
  {
    hide Verified;
    var after := Recovered(db, o, now);
    assert Recovered(after, o, later).attempts == after.attempts;
  }
}
