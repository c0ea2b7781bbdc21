/** What becomes of a capture: its fate from the tables and the reader it starts with, and why an acknowledged
    capture is what was sent. */
module Capture {
  import opened Bytes
  import opened Evidence
  import opened Streams
  import opened Tables
  import opened Storage
  import opened Framing
  import opened Wire
  import opened Rpc
  import opened Replies
  import Attempts
  import Journal
  import Fidelity

  predicate ValidCapture(body: CaptureBody) {
    var e := body.event;
    && e.id != "" && e.eventType != "" && e.project != "" && e.session != "" && e.encoding != ""
    && e.sequence >= 0 && e.occurredAt != ZeroTime
  }

  function AttemptOf(q: Request, body: CaptureBody): Attempt {
    Attempt(q.id, EventOf(q, body), body.payloadSize, Unset, None, None)
  }

  // What the daemon asks of a capture is what the store asks of its attempt: a capture is never taken and then found
  // invalid.
  lemma ValidCaptureIffAttempt(q: Request, body: CaptureBody)
    requires TakesCapture(q)
    ensures ValidCapture(body) <==> Attempts.ValidAttempt(AttemptOf(q, body))
  {
  }

  // ---------- the fate of a capture ----------

  // Where a begun capture ends: at its header, at the append, at a completion that finds the evidence wanting,
  // or acknowledged.
  datatype Fate = BadHeader | BadAppend | Unverified | Completes

  // The reader's plan behind a header that declares the right size.
  ghost function HeaderPlan(body: CaptureBody, inbound: bytes, plan: seq<ReadStep>): Option<seq<ReadStep>> {
    if |inbound| >= HEADER_LENGTH && Declared(inbound) == body.payloadSize as nat && body.payloadSize <= MAX_INT64
    then Fill(inbound, plan, HEADER_LENGTH) else None
  }

  // A new event needs the bytes, and for its completion full reads; one that is there needs evidence equal to its
  // own, and for the completion of this attempt the same metadata.
  ghost function AppendFate(db: Tables, event: Event, declared: uint64, inbound: bytes, plan: seq<ReadStep>, o: Oracle): (fate: Fate)
    ensures fate != BadHeader
  {
    match Deliver(inbound, plan, declared as nat)
    case Interrupted(_) => BadAppend
    case Delivered(chunks) =>
      if event.id in db.events && event.id in db.chunks then
        if !SameEvidence(db, event.id, Digest(declared, o.sha256(Join(chunks))), o) then BadAppend
        else if db.events[event.id].event == event then Completes else Unverified
      else if FullReads(chunks, declared as nat) then Completes else Unverified
  }

  ghost function FateOf(db: Tables, q: Request, body: CaptureBody, inbound: bytes, plan: seq<ReadStep>, o: Oracle): Fate {
    match HeaderPlan(body, inbound, plan)
    case None => BadHeader
    case Some(rest) => AppendFate(db, EventOf(q, body), body.payloadSize, inbound[HEADER_LENGTH..], rest, o)
  }

  // What each fate leaves of the attempt.
  predicate Fated(a: Attempt, fate: Fate) {
    match fate
    case BadHeader => a.status == Incomplete && a.failureStage == Some(HeaderStage)
    case BadAppend => a.status == Incomplete && a.failureStage == Some(AppendStage)
    case Unverified => a.status == Pending
    case Completes => a.status == Completed
  }

  // The acknowledgement that comes of it.
  function Acknowledgement(b: Bodies, db: Tables, q: Request, body: CaptureBody, rest: bytes, o: Oracle): Response {
    var data := if body.payloadSize as nat <= |rest| then rest[..body.payloadSize] else [];
    OkResponse(b, q.id, Captured(AppendResult(EventOf(q, body).id in db.events, body.payloadSize, o.sha256(data))))
  }

  // The captures whose attempt stays pending. All the evidence is appended; but for a new event not in full reads, and
  // for one that is there it is the stored evidence with other metadata, which the append ignores and the completion
  // does not.
  ghost predicate LeftPending(db: Tables, q: Request, body: CaptureBody, inbound: bytes, plan: seq<ReadStep>, o: Oracle) {
    && HeaderPlan(body, inbound, plan).Some?
    && var size, event := body.payloadSize, EventOf(q, body);
    var d := Deliver(inbound[HEADER_LENGTH..], HeaderPlan(body, inbound, plan).value, size as nat);
    && d.Delivered?
    && if event.id in db.events && event.id in db.chunks
       then SameEvidence(db, event.id, Digest(size, o.sha256(Join(d.chunks))), o) && db.events[event.id].event != event
       else !FullReads(d.chunks, size as nat)
  }

  lemma UnverifiedIffLeftPending(db: Tables, q: Request, body: CaptureBody, inbound: bytes, plan: seq<ReadStep>, o: Oracle)
    ensures FateOf(db, q, body, inbound, plan, o) == Unverified <==> LeftPending(db, q, body, inbound, plan, o)
  {
    hide SameEvidence, FullReads, Deliver, Fill;
  }

  // What a capture leaves of its attempt when the store works, whoever else is at work: it is settled, unless its
  // header was right, its evidence came and its event is in the store.
  ghost predicate LeftPendingRightly(before: Tables, after: Tables, q: Request, body: CaptureBody, inbound: bytes, plan: seq<ReadStep>) {
    Attempts.Beginnable(before, AttemptOf(q, body)) ==>
      && q.id in after.attempts
      && (after.attempts[q.id].status == Pending ==> Appendable(body, inbound, plan) && body.event.id in after.events)
  }

  ghost predicate Appendable(body: CaptureBody, inbound: bytes, plan: seq<ReadStep>) {
    && HeaderPlan(body, inbound, plan).Some?
    && Deliver(inbound[HEADER_LENGTH..], HeaderPlan(body, inbound, plan).value, body.payloadSize as nat).Delivered?
  }

  // A header, and then two bytes in two Reads: the capture is left pending.
  lemma TwoReadsLeavePending(db: Tables, q: Request, body: CaptureBody, data: bytes, o: Oracle)
    requires body.event.id !in db.events && body.payloadSize == 2 && |data| == 2
    ensures FateOf(db, q, body, Header(2) + data, [ReadStep(HEADER_LENGTH, None), ReadStep(1, None), ReadStep(1, None)], o) == Unverified
    ensures LeftPending(db, q, body, Header(2) + data, [ReadStep(HEADER_LENGTH, None), ReadStep(1, None), ReadStep(1, None)], o)
  {
    var inbound, one := Header(2) + data, ReadStep(1, None);
    var plan := [ReadStep(HEADER_LENGTH, None), one, one];
    EvidenceUnit(2, data);
    assert plan[1..] == [one, one] && [one, one][1..] == [one] && [one][1..] == [];
    assert Fill(inbound, plan, HEADER_LENGTH) == Some([one, one]) by {
      assert ReadCount(inbound, plan, HEADER_LENGTH) == HEADER_LENGTH;
      assert Fill(inbound[HEADER_LENGTH..], [one, one], 0) == Some([one, one]);
    }
    assert inbound[HEADER_LENGTH..] == data;
    assert Deliver(data[1..][1..], [], 0) == Delivered([]);
    assert Deliver(data[1..], [one], 1) == Delivered([data[1..][..1]]);
    var d := Deliver(data, [one, one], 2);
    assert d == Delivered([data[..1]] + [data[1..][..1]]);
    UnverifiedIffLeftPending(db, q, body, inbound, plan, o);
  }

  // The evidence of a capture will do: the event is new, or it is there with this evidence and this metadata.
  ghost predicate Welcome(db: Tables, q: Request, body: CaptureBody, data: bytes, o: Oracle) {
    var event := EventOf(q, body);
    event.id in db.events && event.id in db.chunks ==>
      SameEvidence(db, event.id, Digest(body.payloadSize, o.sha256(data)), o) && db.events[event.id].event == event
  }

  // Such evidence, from a reader that can fill the buffer at every call, is acknowledged.
  lemma FullReadsComplete(db: Tables, q: Request, body: CaptureBody, inbound: bytes, plan: seq<ReadStep>, o: Oracle)
    requires body.payloadSize <= MAX_INT64 && |inbound| >= HEADER_LENGTH && Declared(inbound) == body.payloadSize as nat
    requires Provides(inbound, plan, HEADER_LENGTH + body.payloadSize as nat) && Roomy(plan)
    requires Welcome(db, q, body, inbound[HEADER_LENGTH..][..body.payloadSize], o)
    ensures FateOf(db, q, body, inbound, plan, o) == Completes
  {
    FillEnough(inbound, plan, HEADER_LENGTH);
    var rest := Fill(inbound, plan, HEADER_LENGTH).value;
    RoomyDelivers(inbound[HEADER_LENGTH..], rest, body.payloadSize as nat);
    DeliveredBytes(inbound[HEADER_LENGTH..], rest, body.payloadSize as nat);
    hide SameEvidence;
  }

  // ---------- how a capture fails ----------

  // What a request finds: the tables, what is behind its frame and how it will be read, whether the store works, and
  // whether nobody else is at work.
  datatype Scene = Scene(db: Tables, rest: bytes, plan: seq<ReadStep>, quiet: bool, alone: bool)

  // The error that an appending capture gets: a conflict if the event is there and the evidence came, or an internal one.
  ghost predicate AppendFails(q: Request, body: CaptureBody, came: bool, after: Tables, r: Response) {
    || (r == StorageErrorResponse(q.id, Conflict) && came && body.event.id in after.events)
    || r == Internal(q.id)
  }

  // Which of the two, if the fate of the capture decides.
  ghost predicate FatedError(q: Request, fate: Fate, came: bool, r: Response) {
    match fate
    case BadHeader => r == InvalidEvidence(q.id)
    case BadAppend => r == if came then StorageErrorResponse(q.id, Conflict) else Internal(q.id)
    case Unverified => r == Internal(q.id)
    case Completes => r.status == "ok"
  }

  // The error that a capture gets, by what it finds.
  ghost predicate CaptureFailure(b: Bodies, scene: Scene, after: Tables, o: Oracle, q: Request, r: Response) {
    match b.capture(q.body)
    case None => r == InvalidCapture(q.id)
    case Some(body) =>
      if !ValidCapture(body) then r == InvalidCapture(q.id)
      else if !Attempts.Beginnable(scene.db, AttemptOf(q, body)) then
        r == StorageErrorResponse(q.id, Conflict) || (!scene.quiet && r == Internal(q.id))
      else
        var header, came := HeaderPlan(body, scene.rest, scene.plan).Some?, Appendable(body, scene.rest, scene.plan);
        && ((!scene.quiet && r == Internal(q.id))
            || if header then AppendFails(q, body, came, after, r) else r == InvalidEvidence(q.id))
        && (scene.alone && scene.quiet && ProperHash(o) ==>
              FatedError(q, FateOf(scene.db, q, body, scene.rest, scene.plan, o), came, r))
  }

  // ---------- the append ----------

  // The append has left the attempts as they were, and those for this event can or cannot be completed.
  ghost predicate Readied(before: Tables, after: Tables, event: Event, declared: uint64, good: bool, o: Oracle) {
    && after.attempts == before.attempts
    && forall a: Attempt | a.event == event && a.declared == declared :: Verified(after, a, o) == good
  }

  lemma NewReadied(before: Tables, after: Tables, event: Event, now: Instant, inbound: bytes, plan: seq<ReadStep>,
                   declared: uint64, o: Oracle)
    requires ProperHash(o) && event.occurredAt != ZeroTime && event.id !in before.events
    requires Appended(before, after, event, now, inbound, plan, declared, o)
    ensures AppendFate(before, event, declared, inbound, plan, o) != BadAppend
    ensures Readied(before, after, event, declared, AppendFate(before, event, declared, inbound, plan, o) == Completes, o)
  {
    var chunks := Deliver(inbound, plan, declared as nat).chunks;
    DeliveredSizes(inbound, plan, declared as nat);
    forall a: Attempt | a.event == event && a.declared == declared
      ensures Verified(after, a, o) == FullReads(chunks, declared as nat)
    {
      Fidelity.CompletableIffFullReads(before, a, chunks, o);
    }
  }

  lemma ExistingReadied(db: Tables, event: Event, inbound: bytes, plan: seq<ReadStep>, declared: uint64, o: Oracle)
    requires ProperHash(o) && event.id in db.events && event.id in db.chunks
    requires Deliver(inbound, plan, declared as nat).Delivered?
    requires SameEvidence(db, event.id, Digest(declared, o.sha256(Join(Deliver(inbound, plan, declared as nat).chunks))), o)
    ensures AppendFate(db, event, declared, inbound, plan, o) != BadAppend
    ensures Readied(db, db, event, declared, AppendFate(db, event, declared, inbound, plan, o) == Completes, o)
  {
  }

  // Whatever came of an append, and why.
  lemma AppendFated(before: Tables, after: Tables, event: Event, now: Instant, inbound: bytes, plan: seq<ReadStep>,
                    declared: uint64, ok: bool, o: Oracle)
    requires ProperHash(o) && event.occurredAt != ZeroTime && Schema(before)
    requires Deliver(inbound, plan, declared as nat).Delivered? ==> declared as nat <= |inbound|
    requires ok ==> Deliver(inbound, plan, declared as nat).Delivered?
    requires ok <== Deliver(inbound, plan, declared as nat).Delivered? &&
               (event.id in before.events ==>
                  SameEvidence(before, event.id, Digest(declared, o.sha256(Join(Deliver(inbound, plan, declared as nat).chunks))), o))
    requires ok && event.id in before.events ==>
               SameEvidence(before, event.id, Digest(declared, o.sha256(inbound[..declared])), o) && after == before
    requires ok && event.id !in before.events ==> Appended(before, after, event, now, inbound, plan, declared, o)
    ensures ok <==> AppendFate(before, event, declared, inbound, plan, o) != BadAppend
    ensures ok ==> Readied(before, after, event, declared, AppendFate(before, event, declared, inbound, plan, o) == Completes, o)
  {
    hide SameEvidence, Readied, Verified, ProperHash, Deliver;
    if ok {
      DeliveredBytes(inbound, plan, declared as nat);
      if event.id in before.events {
        ExistingReadied(before, event, inbound, plan, declared, o);
      } else {
        NewReadied(before, after, event, now, inbound, plan, declared, o);
      }
    }
  }

  // The verdict on this capture's own attempt.
  lemma AttemptReadied(begun: Tables, db: Tables, q: Request, body: CaptureBody, good: bool, o: Oracle)
    requires q.id in begun.attempts && Attempts.SameAttempt(begun.attempts[q.id], AttemptOf(q, body))
    requires Readied(begun, db, EventOf(q, body), body.payloadSize, good, o)
    ensures q.id in db.attempts && db.attempts[q.id] == begun.attempts[q.id] && Verified(db, db.attempts[q.id], o) == good
  {
    hide Verified;
  }

  // ---------- what transactions leave ----------

  lemma Moved(before: Tables, after: Tables, action: Journal.Action, o: Oracle)
    requires Journal.Inv(before, o) && Journal.Takes(before, after, action, o)
    ensures Journal.Inv(after, o) && Journal.Through(before, after, o) && Journal.Preserved(before, after)
  {
    Journal.ThroughNothing(before, o);
    Journal.ThroughStep(before, before, after, action, o);
    Journal.StepKeeps(before, after, action, o);
  }

  lemma KeptThrough(a: Tables, b: Tables, c: Tables, o: Oracle)
    requires Journal.Inv(a, o) && Journal.Preserved(a, b) && Journal.Preserved(b, c)
    ensures Journal.Preserved(a, c)
  {
    Journal.SchemaHolds(a, o);
    Journal.PreservedTransitive(a, b, c);
  }

  // What a successful append leaves: the hash of the data under the event, and for a new event its chunks.
  ghost predicate Ingested(db: Tables, event: Event, data: bytes, result: AppendResult, o: Oracle) {
    && event.id in db.events && event.id in db.chunks
    && db.events[event.id].sha256 == o.sha256(data)
    && (!result.alreadyPresent ==> exists chunks: seq<bytes> :: db.chunks[event.id] == RowsOf(chunks) && Join(chunks) == data)
  }

  lemma AppendIngests(before: Tables, after: Tables, event: Event, now: Instant, inbound: bytes, plan: seq<ReadStep>,
                      declared: uint64, result: AppendResult, o: Oracle)
    requires event.occurredAt != ZeroTime && declared as nat <= |inbound|
    requires Appended(before, after, event, now, inbound, plan, declared, o)
    ensures Ingested(after, event, inbound[..declared], result, o)
  {
    var chunks := Deliver(inbound, plan, declared as nat).chunks;
    assert after.chunks[event.id] == RowsOf(chunks);
  }

  lemma AppendTakes(before: Tables, after: Tables, event: Event, now: Instant, inbound: bytes, plan: seq<ReadStep>,
                    declared: uint64, o: Oracle)
    requires event.id !in before.events && Appended(before, after, event, now, inbound, plan, declared, o)
    ensures Journal.Takes(before, after, Journal.Append(event, now, inbound, plan, declared), o)
  {
  }

  lemma RetryIngests(db: Tables, event: Event, data: bytes, declared: uint64, result: AppendResult, o: Oracle)
    requires event.id in db.events && event.id in db.chunks && result.alreadyPresent
    requires SameEvidence(db, event.id, Digest(declared, o.sha256(data)), o)
    ensures Ingested(db, event, data, result, o)
  {
  }

  lemma EvidenceUnit(length: uint64, data: bytes)
    requires |data| == length as nat
    ensures var e := Header(length) + data;
            EvidenceLength(e) == Some(|e|) && Declared(e) == length as nat && e[HEADER_LENGTH..] == data
  {
    HeaderBijective(length, Header(length));
    assert (Header(length) + data)[..HEADER_LENGTH] == Header(length);
  }

  // Begun, appended and completed, whatever came between: the completed attempt is the one begun, and
  // the evidence it was checked against is what this capture sent.
  lemma CaptureIsAcknowledged(begun: Tables, appended: Tables, done: Tables, q: Request, body: CaptureBody,
                              data: bytes, result: AppendResult, o: Oracle)
    requires Journal.Inv(done, o)
    requires Journal.Preserved(begun, appended) && Journal.Preserved(appended, done)
    requires q.id in begun.attempts && q.id in done.attempts && done.attempts[q.id].status == Completed
    requires var a := begun.attempts[q.id]; a.id == q.id && a.event == EventOf(q, body) && a.declared == body.payloadSize
    requires Ingested(appended, EventOf(q, body), data, result, o) && |data| == body.payloadSize as nat
    requires result == AppendResult(result.alreadyPresent, body.payloadSize, o.sha256(data))
    ensures Acknowledged(done, q, body, Header(body.payloadSize) + data, result, o)
  {
    hide Journal.Inv, Verified, Journal.Preserved, Journal.HoldsPayload, Header, Declared, EvidenceLength, RowsOf, Join;
    EvidenceUnit(body.payloadSize, data);
    CompletedIsVerified(done, q.id, o);
    VerifiedHasEvent(done, done.attempts[q.id], o);
    AttemptKept(begun, appended, q.id);
    AttemptKept(appended, done, q.id);
    EvidenceKept(appended, done, body.event.id);
    if !result.alreadyPresent {
      var chunks: seq<bytes> :| appended.chunks[body.event.id] == RowsOf(chunks) && Join(chunks) == data;
      VerifiedChunks(done, done.attempts[q.id], chunks, o);
    }
  }

  lemma CompletedIsVerified(db: Tables, id: string, o: Oracle)
    requires Journal.Inv(db, o) && id in db.attempts && db.attempts[id].status == Completed
    ensures db.attempts[id].id == id && Verified(db, db.attempts[id], o)
  {
    assert Journal.AttemptHolds(db, db.attempts[id], id, o);
    hide Verified, Journal.EventHolds;
  }

  lemma VerifiedHasEvent(db: Tables, a: Attempt, o: Oracle)
    requires Verified(db, a, o)
    ensures a.event.id in db.events && a.event.id in db.chunks
  {
  }

  lemma AttemptKept(before: Tables, after: Tables, id: string)
    requires Journal.Preserved(before, after)
    ensures id in before.attempts ==> id in after.attempts && Attempts.SameAttempt(after.attempts[id], before.attempts[id])
  {
  }

  lemma StillThere(appended: Tables, later: Tables, after: Tables, id: string, event: Event, data: bytes, result: AppendResult, o: Oracle)
    requires Journal.Preserved(appended, later) && Journal.Preserved(later, after)
    requires id in appended.attempts && Ingested(appended, event, data, result, o)
    ensures id in after.attempts && event.id in after.events
  {
    AttemptKept(appended, later, id);
    AttemptKept(later, after, id);
    EvidenceKept(appended, later, event.id);
    EvidenceKept(later, after, event.id);
    hide Journal.Preserved;
  }

  lemma EvidenceKept(before: Tables, after: Tables, id: string)
    requires Journal.Preserved(before, after)
    ensures id in before.events && id in before.chunks ==>
              id in after.events && id in after.chunks
              && after.events[id] == before.events[id] && after.chunks[id] == before.chunks[id]
  {
  }

  // If an attempt verifies against these chunks, its event holds what they add up to.
  lemma VerifiedChunks(db: Tables, a: Attempt, chunks: seq<bytes>, o: Oracle)
    requires Verified(db, a, o) && db.chunks[a.event.id] == RowsOf(chunks) && |Join(chunks)| == a.declared as nat
    ensures Journal.HoldsPayload(db, a, Join(chunks), o)
  {
    var payload := Journal.VerifiedHolds(db, a, o);
    RowsOfInjective(chunks, Split(payload));
    JoinSplit(payload);
  }
}
