/** The daemon's side of a connection: the request loop, its handlers, and capture, which drives the
    attempt journal around the append. A handler that returns `drop` ends the connection. */
module Daemon {
  import opened Bytes
  import opened Evidence
  import opened Streams
  import opened Tables
  import opened Storage
  import opened Framing
  import opened Wire
  import opened Rpc
  import opened Replies
  import opened Capture
  import opened Answers
  import Attempts
  import Journal
  import Search
  import opened Paging

  // The bytes of one reply without evidence went out.
  ghost predicate Sent(c: Codec, reply: Response, before: bytes, after: bytes) {
    Fits(c, reply) && after == before + FrameOf(c, reply)
  }

  // ---------- what keeps a connection ----------

  // Nothing is in the way of a capture: it is valid, its attempt can begin, its evidence lets it complete, and
  // the acknowledgement fits.
  ghost predicate CaptureUnhindered(c: Codec, b: Bodies, db: Tables, q: Request, inbound: bytes, readPlan: seq<ReadStep>, o: Oracle) {
    && b.capture(q.body).Some? && ProperHash(o)
    && var body := b.capture(q.body).value;
    && ValidCapture(body) && Attempts.Beginnable(db, AttemptOf(q, body))
    && FateOf(db, q, body, inbound, readPlan, o) == Completes
    && |inbound| >= HEADER_LENGTH && Fits(c, Acknowledgement(b, db, q, body, inbound[HEADER_LENGTH..], o))
  }

  // How a turn finds the daemon and the connection.
  datatype Head = Head(
    read: bytes, sent: bytes, inbound: bytes, readPlan: seq<ReadStep>, writePlan: seq<WriteStep>,
    quiet: bool, running: bool, db: Tables)

  // With this request the daemon keeps the connection: it can read it, the store and the writer work, and the
  // reply fits.
  ghost predicate Keeps(c: Codec, b: Bodies, o: Oracle, alone: bool, quiet: bool, running: bool, db: Tables, q: Request,
                        inbound: bytes, readPlan: seq<ReadStep>, writePlan: seq<WriteStep>)
  {
    && Reliable(writePlan)
    && if q.version != VERSION then Fits(c, UnsupportedProtocol(q.id))
       else if q.id == "" || q.operation == "" then Fits(c, InvalidRequest(q.id))
       else if q.operation == CAPTURE then alone && quiet && CaptureUnhindered(c, b, db, q, inbound, readPlan, o)
       else if q.operation == READ_PAYLOAD then quiet && PageThere(b, db, q) && Fits(c, PayloadResponse(b, db, q))
       else (running || !AsksForHealth(q)) && forall r :: PlainAnswer(b, db, quiet, o, q, r) ==> Fits(c, r)
  }

  ghost predicate SurelyKept(c: Codec, b: Bodies, o: Oracle, alone: bool, h: Head) {
    && FramePlan(h.inbound, h.readPlan).Some? && Complete(h.inbound)
    && c.decodeRequest(Payload(h.inbound)).Some?
    && Keeps(c, b, o, alone, h.quiet, h.running, h.db, c.decodeRequest(Payload(h.inbound)).value,
             Tail(h.inbound), FramePlan(h.inbound, h.readPlan).value, h.writePlan)
  }

  // ---------- turns ----------

  // One turn of the request loop: the request, if one was read, as payload and as decoded, the evidence consumed
  // behind it, the whole reply the daemon set out to send, the tables it is right for, and what the request found.
  datatype Turn = Turn(payload: bytes, asked: Option<Request>, evidence: bytes, reply: bytes, db: Tables, scene: Scene)

  // What the request at a head finds.
  ghost function SceneOf(alone: bool, h: Head): Scene {
    if FramePlan(h.inbound, h.readPlan).Some? && Complete(h.inbound)
    then Scene(h.db, Tail(h.inbound), FramePlan(h.inbound, h.readPlan).value, h.quiet, alone)
    else Scene(h.db, [], [], h.quiet, alone)
  }

  function ExchangeOf(t: Turn): Exchange
    requires |t.payload| <= MAX_CONTROL_FRAME
  {
    Exchange(Frame(t.payload) + t.evidence, t.reply)
  }

  // A turn after which the connection is kept: one whole exchange, with the right reply.
  ghost predicate RightTurn(c: Codec, b: Bodies, o: Oracle, t: Turn) {
    && |t.payload| <= MAX_CONTROL_FRAME && t.asked.Some? && c.decodeRequest(t.payload) == t.asked
    && RightReply(c, b, t.scene, t.db, o, t.asked.value, t.evidence, t.reply)
    && ServerExchange(c, ExchangeOf(t))
  }

  // The turn after which it is not: part of a reply may have gone out, and if all of it has it tells the truth.
  ghost predicate RightEnd(c: Codec, b: Bodies, o: Oracle, t: Turn, part: bytes) {
    if t.asked.None? then part == []
    else
      && |t.payload| <= MAX_CONTROL_FRAME && c.decodeRequest(t.payload) == t.asked
      && part <= t.reply
      && (t.reply == [] || IsReply(c, t.asked.value.operation == READ_PAYLOAD, t.reply))
      && (part == t.reply != [] ==> Told(c, b, t.scene, t.db, o, t.asked.value, t.evidence, t.reply))
  }

  function Exchanges(turns: seq<Turn>): seq<Exchange>
    requires forall i :: 0 <= i < |turns| ==> |turns[i].payload| <= MAX_CONTROL_FRAME
  {
    seq(|turns|, i requires 0 <= i < |turns| => ExchangeOf(turns[i]))
  }

  // The head after a kept turn. Nothing else has drawn on the reader or the writer; a store that worked and a writer
  // that was reliable still are; and if nobody else is at work, tables and daemon are as the turn left them.
  ghost predicate Follows(o: Oracle, alone: bool, head: Head, t: Turn, next: Head) {
    && t.scene == SceneOf(alone, head)
    && Drawn(head.inbound, head.readPlan, next.inbound, next.readPlan)
    && (Reliable(head.writePlan) ==> Reliable(next.writePlan)) && (head.quiet ==> next.quiet) && (next.running ==> head.running)
    && Journal.Through(head.db, t.db, o) && Journal.Through(t.db, next.db, o)
    && (alone ==> next.running == head.running && next.db == t.db)
  }

  // The first head is the connection as it was given.
  ghost predicate Opens(o: Oracle, alone: bool, start: Head, head: Head) {
    && head == start.(quiet := head.quiet, running := head.running, db := head.db)
    && (start.quiet ==> head.quiet) && (head.running ==> start.running) && Journal.Through(start.db, head.db, o)
    && (alone ==> head.running == start.running && head.db == start.db)
  }

  // The turns that kept a connection and the heads of all: at each head the daemon has read and sent exactly the
  // exchanges so far.
  ghost predicate Conversation(c: Codec, b: Bodies, o: Oracle, alone: bool, inbound: bytes, turns: seq<Turn>, heads: seq<Head>) {
    && |heads| == |turns| + 1
    && (forall i :: 0 <= i < |turns| ==> RightTurn(c, b, o, turns[i]))
    && (forall i :: 0 <= i < |heads| ==>
          && ServerLog(c, Exchanges(turns[..i]), heads[i].read, heads[i].sent)
          && heads[i].read + heads[i].inbound == inbound)
    && (forall i :: 0 <= i < |turns| ==> Follows(o, alone, heads[i], turns[i], heads[i + 1]))
  }

  // The last turn, after which the connection is not kept: something was in its way.
  ghost predicate Ends(c: Codec, b: Bodies, o: Oracle, alone: bool, outbound: bytes, last: Head, end: Turn) {
    && last.sent <= outbound && RightEnd(c, b, o, end, outbound[|last.sent|..])
    && (end.asked.Some? ==> |end.payload| <= MAX_CONTROL_FRAME && ExchangeOf(end).up <= last.inbound)
    && !SurelyKept(c, b, o, alone, last) && end.scene == SceneOf(alone, last)
    && Journal.Through(last.db, end.db, o)
  }

  // A connection served from its start to its end.
  ghost predicate ServedToEnd(c: Codec, b: Bodies, o: Oracle, alone: bool, start: Head, outbound: bytes, turns: seq<Turn>,
                              heads: seq<Head>, end: Turn)
  {
    && Conversation(c, b, o, alone, start.inbound, turns, heads)
    && Opens(o, alone, start, heads[0])
    && Ends(c, b, o, alone, outbound, heads[|turns|], end)
  }

  class Daemon {
    const store: Store
    const codec: Codec
    const bodies: Bodies
    // Whether nobody else is at work: no other connection has transactions, and nobody closes the daemon. Nothing
    // but results that need it look at this.
    ghost const alone: bool
    var running: bool

    constructor (store: Store, codec: Codec, bodies: Bodies, ghost alone: bool)
      ensures this.store == store && this.codec == codec && this.bodies == bodies && this.alone == alone && running
    {
      this.store, this.codec, this.bodies, this.alone, running := store, codec, bodies, alone, true;
    }

    ghost function HeadOf(conn: Stream): Head
      reads this, store, conn
    {
      Head(conn.consumed, conn.outbound, conn.inbound, conn.readPlan, conn.writePlan, Quiet(store.faults), running, store.db)
    }

    method WriteReply(conn: Stream, reply: Response) returns (drop: bool)
      modifies conn`outbound, conn`writePlan
      ensures Sending(old(conn.outbound), conn.outbound, FrameOf(codec, reply))
      ensures !drop ==> Sent(codec, reply, old(conn.outbound), conn.outbound)
      ensures Reliable(old(conn.writePlan)) ==> Reliable(conn.writePlan) && (Fits(codec, reply) ==> !drop)
    {
      SendingAll(conn.outbound, conn.outbound, FrameOf(codec, reply));
      var err := WriteFrame(conn, codec.encodeResponse(reply));
      drop := err.Some?;
    }

    method WriteOK(conn: Stream, id: string, body: ReplyBody) returns (drop: bool)
      modifies conn`outbound, conn`writePlan
      ensures Sending(old(conn.outbound), conn.outbound, FrameOf(codec, OkResponse(bodies, id, body)))
      ensures !drop ==> Sent(codec, OkResponse(bodies, id, body), old(conn.outbound), conn.outbound)
      ensures Reliable(old(conn.writePlan)) ==> Reliable(conn.writePlan) && (Fits(codec, OkResponse(bodies, id, body)) ==> !drop)
    {
      drop := WriteReply(conn, OkResponse(bodies, id, body));
    }

    method WriteError(conn: Stream, id: string, code: string, message: string) returns (drop: bool)
      modifies conn`outbound, conn`writePlan
      ensures Sending(old(conn.outbound), conn.outbound, FrameOf(codec, ErrorResponse(id, code, message)))
      ensures !drop ==> Sent(codec, ErrorResponse(id, code, message), old(conn.outbound), conn.outbound)
      ensures Reliable(old(conn.writePlan)) ==> Reliable(conn.writePlan) && (Fits(codec, ErrorResponse(id, code, message)) ==> !drop)
    {
      drop := WriteReply(conn, ErrorResponse(id, code, message));
    }

    method WriteStorageError(conn: Stream, id: string, error: StoreError) returns (drop: bool)
      modifies conn`outbound, conn`writePlan
      ensures Sending(old(conn.outbound), conn.outbound, FrameOf(codec, StorageErrorResponse(id, error)))
      ensures !drop ==> Sent(codec, StorageErrorResponse(id, error), old(conn.outbound), conn.outbound)
      ensures Reliable(old(conn.writePlan)) ==> Reliable(conn.writePlan) && (Fits(codec, StorageErrorResponse(id, error)) ==> !drop)
    {
      match error
      case NotFound => drop := WriteError(conn, id, "not_found", "event was not found");
      case Conflict => drop := WriteError(conn, id, "conflict", "event conflicts with stored evidence");
      case _ => drop := WriteError(conn, id, "internal", "internal server error");
    }

    // Other connections' transactions, any number of them. The body does nothing; its callers
    // know no more than that the tables may have moved through any transactions.
    method Interference()
      requires Journal.Inv(store.db, store.oracle)
      modifies store
      ensures Journal.Inv(store.db, store.oracle) && Journal.Through(old(store.db), store.db, store.oracle)
      ensures Journal.Preserved(old(store.db), store.db)
      ensures Quiet(old(store.faults)) ==> Quiet(store.faults)
      ensures alone ==> store.db == old(store.db)
    {
      Journal.ThroughNothing(store.db, store.oracle);
      Journal.PreservedReflexive(store.db);
    }

    // Between two turns the daemon may also be told to close.
    method Meanwhile()
      requires Journal.Inv(store.db, store.oracle)
      modifies store, this`running
      ensures Journal.Inv(store.db, store.oracle) && Journal.Through(old(store.db), store.db, store.oracle)
      ensures Journal.Preserved(old(store.db), store.db)
      ensures Quiet(old(store.faults)) ==> Quiet(store.faults)
      ensures running ==> old(running)
      ensures alone ==> store.db == old(store.db) && running == old(running)
    {
      Interference();
    }

    // ---------- capture ----------

    method Begin(attempt: Attempt) returns (r: Result<()>)
      requires Journal.Inv(store.db, store.oracle)
      modifies store
      ensures Journal.Inv(store.db, store.oracle) && Journal.Through(old(store.db), store.db, store.oracle)
      ensures Journal.Preserved(old(store.db), store.db)
      ensures r.Ok? ==> attempt.id in store.db.attempts && Attempts.SameAttempt(store.db.attempts[attempt.id], attempt)
      ensures r.Ok? ==> store.db.attempts[attempt.id].status == Pending
      ensures r.Ok? ==> store.db.events == old(store.db).events && store.db.chunks == old(store.db).chunks
      ensures r.Ok? ==> Attempts.Beginnable(old(store.db), attempt)
      ensures r.Err? ==> r.error == Fault || (r.error == Conflict && !Attempts.Beginnable(old(store.db), attempt))
      ensures Quiet(old(store.faults)) ==> Quiet(store.faults) && r != Err(Fault) && (r.Ok? <==> Attempts.Beginnable(old(store.db), attempt))
    {
      hide Journal.Inv, Journal.Preserved, Journal.Through;
      Journal.SchemaHolds(store.db, store.oracle);
      ghost var db := store.db;
      r := Attempts.BeginCaptureAttempt(store, attempt);
      Moved(db, store.db, if r.Ok? then Journal.Begin(attempt) else Journal.Aborted, store.oracle);
    }

    method Mark(id: string, stage: Stage, now: Instant)
      requires Journal.Inv(store.db, store.oracle) && Attempts.ValidStage(stage)
      modifies store
      ensures Journal.Inv(store.db, store.oracle) && Journal.Through(old(store.db), store.db, store.oracle)
      ensures Journal.Preserved(old(store.db), store.db)
      ensures Quiet(old(store.faults)) && id in old(store.db).attempts ==>
                && id in store.db.attempts
                && var a, a' := old(store.db).attempts[id], store.db.attempts[id];
                if a.status == Pending then a'.status == Incomplete && a'.failureStage == Some(stage) else a' == a
    {
      hide Journal.Inv, Journal.Preserved, Journal.Through;
      Journal.SchemaHolds(store.db, store.oracle);
      ghost var db := store.db;
      var r := Attempts.MarkCaptureIncomplete(store, id, stage, now);
      Moved(db, store.db, if store.db == db then Journal.Aborted else Journal.Mark(id, stage, now), store.oracle);
    }

    method Append(event: Event, conn: Stream, declared: uint64, now: Instant) returns (r: Result<AppendResult>)
      requires Journal.Inv(store.db, store.oracle) && event.occurredAt != ZeroTime
      modifies store, conn`inbound, conn`readPlan, conn`consumed
      ensures |conn.inbound| <= |old(conn.inbound)|
      ensures Journal.Inv(store.db, store.oracle) && Journal.Through(old(store.db), store.db, store.oracle)
      ensures Journal.Preserved(old(store.db), store.db)
      ensures Quiet(old(store.faults)) ==> Quiet(store.faults)
      ensures r.Ok? ==>
                && declared as nat <= |old(conn.inbound)|
                && Advanced(old(conn.inbound), old(conn.consumed), old(conn.inbound)[..declared], conn.inbound, conn.consumed)
                && r.value == AppendResult(event.id in old(store.db).events, declared, store.oracle.sha256(old(conn.inbound)[..declared]))
                && Ingested(store.db, event, old(conn.inbound)[..declared], r.value, store.oracle)
                && Drawn(old(conn.inbound), old(conn.readPlan), conn.inbound, conn.readPlan)
                && Deliver(old(conn.inbound), old(conn.readPlan), declared as nat).Delivered?
      ensures r.Err? ==> StorageErrorResponse("", r.error) == if r.error == Conflict then StorageErrorResponse("", Conflict) else Internal("")
      ensures r == Err(Conflict) ==>
                Deliver(old(conn.inbound), old(conn.readPlan), declared as nat).Delivered? && event.id in store.db.events
      ensures Quiet(old(store.faults)) && declared <= MAX_INT64 && r.Err? ==>
                (r.error == Conflict <==> Deliver(old(conn.inbound), old(conn.readPlan), declared as nat).Delivered?)
      ensures Quiet(old(store.faults)) && ProperHash(store.oracle) && declared <= MAX_INT64 ==>
                var fate := AppendFate(old(store.db), event, declared, old(conn.inbound), old(conn.readPlan), store.oracle);
                && (r.Ok? <==> fate != BadAppend)
                && (r.Ok? ==> Readied(old(store.db), store.db, event, declared, fate == Completes, store.oracle))
                && (r.Err? ==> store.db == old(store.db))
    {
      hide Journal.Inv, Journal.Preserved, Journal.Through, Deliver, Ingested, Appended, SameEvidence, AppendFate, Readied, ProperHash, Drawn;
      Journal.SchemaHolds(store.db, store.oracle);
      ghost var db, inbound, plan := store.db, conn.inbound, conn.readPlan;
      // The source limits the reader to the declared bytes; the append reads no more than those.
      r := store.AppendEvent(event, conn, declared, now);
      if Deliver(inbound, plan, declared as nat).Delivered? {
        DeliveredBytes(inbound, plan, declared as nat);
      }
      if Quiet(old(store.faults)) && ProperHash(store.oracle) && declared <= MAX_INT64 {
        AppendFated(db, store.db, event, now, inbound, plan, declared, r.Ok?, store.oracle);
      }
      if r.Ok? && !r.value.alreadyPresent {
        AppendIngests(db, store.db, event, now, inbound, plan, declared, r.value, store.oracle);
        Moved(db, store.db, Journal.Append(event, now, inbound, plan, declared), store.oracle) by {
          AppendTakes(db, store.db, event, now, inbound, plan, declared, store.oracle);
        }
      } else {
        Moved(db, store.db, Journal.Aborted, store.oracle);
        if r.Ok? { RetryIngests(store.db, event, inbound[..declared], declared, r.value, store.oracle); }
      }
    }

    method Complete(id: string, now: Instant) returns (r: Result<()>)
      requires Journal.Inv(store.db, store.oracle)
      modifies store
      ensures Journal.Inv(store.db, store.oracle) && Journal.Through(old(store.db), store.db, store.oracle)
      ensures Journal.Preserved(old(store.db), store.db)
      ensures r.Ok? ==> id in store.db.attempts && store.db.attempts[id].status == Completed
      ensures r.Ok? ==> id in old(store.db).attempts
      ensures r.Err? ==> store.db == old(store.db)
      ensures Quiet(old(store.faults)) ==> Quiet(store.faults)
      ensures Quiet(old(store.faults)) && id in old(store.db).attempts && old(store.db).attempts[id].status == Pending ==>
                (r.Ok? <==> Verified(old(store.db), old(store.db).attempts[id], store.oracle))
    {
      hide Journal.Inv, Journal.Preserved, Journal.Through, Verified;
      Journal.SchemaHolds(store.db, store.oracle);
      ghost var db := store.db;
      r := Attempts.CompleteCaptureAttempt(store, id, now);
      Moved(db, store.db, if store.db == db then Journal.Aborted else Journal.Complete(id, now), store.oracle);
    }

    /** Begin, read the header, append, complete: four steps, of which the store commits each alone, with
        other connections' transactions in between. Only an acknowledged capture keeps the connection. */
    method CaptureAppend(conn: Stream, q: Request, now: Instant)
      returns (drop: bool, ghost reply: Response, ghost evidence: bytes)
      requires Journal.Inv(store.db, store.oracle)
      modifies store, conn
      ensures |conn.inbound| <= |old(conn.inbound)|
      ensures Journal.Inv(store.db, store.oracle) && Journal.Through(old(store.db), store.db, store.oracle)
      ensures Sending(old(conn.outbound), conn.outbound, FrameOf(codec, reply))
      ensures ToldOfCapture(bodies, Scene(old(store.db), old(conn.inbound), old(conn.readPlan), Quiet(old(store.faults)), alone),
                            store.db, store.oracle, q, evidence, reply)
      ensures evidence <= old(conn.inbound)
      ensures !drop ==>
                && CaptureAnswer(bodies, store.db, store.oracle, q, evidence, reply)
                && Advanced(old(conn.inbound), old(conn.consumed), evidence, conn.inbound, conn.consumed)
                && Sent(codec, reply, old(conn.outbound), conn.outbound)
                && Drawn(old(conn.inbound), old(conn.readPlan), conn.inbound, conn.readPlan)
                && (Quiet(old(store.faults)) ==> Quiet(store.faults)) && (Reliable(old(conn.writePlan)) ==> Reliable(conn.writePlan))
      ensures Quiet(old(store.faults)) && bodies.capture(q.body).Some? && ValidCapture(bodies.capture(q.body).value) ==>
                LeftPendingRightly(old(store.db), store.db, q, bodies.capture(q.body).value, old(conn.inbound), old(conn.readPlan))
      ensures alone && Quiet(old(store.faults)) && ProperHash(store.oracle)
              && bodies.capture(q.body).Some? && ValidCapture(bodies.capture(q.body).value)
              && Attempts.Beginnable(old(store.db), AttemptOf(q, bodies.capture(q.body).value)) ==>
                && q.id in store.db.attempts
                && Fated(store.db.attempts[q.id], FateOf(old(store.db), q, bodies.capture(q.body).value,
                                                         old(conn.inbound), old(conn.readPlan), store.oracle))
                && (store.db.attempts[q.id].status == Pending <==>
                      LeftPending(old(store.db), q, bodies.capture(q.body).value, old(conn.inbound), old(conn.readPlan), store.oracle))
      ensures alone && Quiet(old(store.faults)) && Reliable(old(conn.writePlan))
              && CaptureUnhindered(codec, bodies, old(store.db), q, old(conn.inbound), old(conn.readPlan), store.oracle) ==>
                !drop
    {
      hide Journal.Inv, Journal.Preserved, Journal.Through, Sent, Acknowledged, ValidCapture, FateOf, Fated, LeftPending, Appendable, Sending, ProperHash, Drawn;
      evidence := [];
      ghost var start, o := store.db, store.oracle;
      Journal.ThroughNothing(start, o);
      var parsed := bodies.capture(q.body);
      if parsed == None || !ValidCapture(parsed.value) {
        drop := WriteError(conn, q.id, "invalid_request", "capture request is invalid");
        return true, InvalidCapture(q.id), [];
      }
      var attempt := AttemptOf(q, parsed.value);
      var begun := Begin(attempt);
      if begun.Err? {
        drop := WriteStorageError(conn, q.id, begun.error);
        return true, StorageErrorResponse(q.id, begun.error), [];
      }
      ghost var db := store.db;
      FateUnchanged(bodies, start, db, q, parsed.value, conn.inbound, conn.readPlan, o);
      UnverifiedIffLeftPending(start, q, parsed.value, conn.inbound, conn.readPlan, o);
      ghost var fate := FateOf(start, q, parsed.value, conn.inbound, conn.readPlan, o);
      ghost var result;
      drop, reply, evidence, result := CaptureEvidence(conn, q, parsed.value, now);
      assert q.id in store.db.attempts && Fated(store.db.attempts[q.id], fate) ==> (store.db.attempts[q.id].status == Pending <==> fate == Unverified) by {
        PendingIsUnverified(fate);
      }
      Journal.ThroughBoth(start, db, store.db, o);
    }

    // The way out of a capture whose header or evidence is bad; the reply may not get through.
    method FailCapture(conn: Stream, id: string, stage: Stage, reply: Response, now: Instant)
      requires Journal.Inv(store.db, store.oracle) && Attempts.ValidStage(stage)
      modifies store, conn`outbound, conn`writePlan
      ensures Journal.Inv(store.db, store.oracle) && Journal.Through(old(store.db), store.db, store.oracle)
      ensures Sending(old(conn.outbound), conn.outbound, FrameOf(codec, reply))
      ensures forall e :: e in old(store.db).events ==> e in store.db.events
      ensures Quiet(old(store.faults)) && id in old(store.db).attempts ==>
                id in store.db.attempts && store.db.attempts[id].status != Pending
      ensures alone && Quiet(old(store.faults)) && id in old(store.db).attempts && old(store.db).attempts[id].status == Pending ==>
                && store.db.attempts[id].status == Incomplete && store.db.attempts[id].failureStage == Some(stage)
    {
      hide Journal.Inv, Journal.Preserved, Journal.Through, Sent, Sending;
      ghost var start := store.db;
      Interference();
      AttemptKept(start, store.db, id);
      ghost var db := store.db;
      Mark(id, stage, now);
      Journal.ThroughBoth(start, db, store.db, store.oracle);
      KeptThrough(start, db, store.db, store.oracle);
      EventsKept(start, store.db, store.oracle);
      var _ := WriteReply(conn, reply);
    }

    // The rest of it, once the attempt is begun.
    method CaptureEvidence(conn: Stream, q: Request, body: CaptureBody, now: Instant)
      returns (drop: bool, ghost reply: Response, ghost evidence: bytes, ghost result: AppendResult)
      requires Journal.Inv(store.db, store.oracle) && ValidCapture(body)
      requires q.id in store.db.attempts && Attempts.SameAttempt(store.db.attempts[q.id], AttemptOf(q, body))
      modifies store, conn
      ensures |conn.inbound| <= |old(conn.inbound)|
      ensures Journal.Inv(store.db, store.oracle) && Journal.Through(old(store.db), store.db, store.oracle)
      ensures Sending(old(conn.outbound), conn.outbound, FrameOf(codec, reply))
      ensures Answered(store.db, q, body, evidence, result, reply)
      ensures reply.status == "error" ==>
                if HeaderPlan(body, old(conn.inbound), old(conn.readPlan)).None? then reply == InvalidEvidence(q.id)
                else AppendFails(q, body, Appendable(body, old(conn.inbound), old(conn.readPlan)), store.db, reply)
      ensures evidence <= old(conn.inbound)
      ensures !drop ==>
                && reply.status == "ok" && Sent(codec, reply, old(conn.outbound), conn.outbound)
                && Advanced(old(conn.inbound), old(conn.consumed), evidence, conn.inbound, conn.consumed)
                && Drawn(old(conn.inbound), old(conn.readPlan), conn.inbound, conn.readPlan)
                && (Quiet(old(store.faults)) ==> Quiet(store.faults)) && (Reliable(old(conn.writePlan)) ==> Reliable(conn.writePlan))
      ensures Quiet(old(store.faults)) ==>
                && q.id in store.db.attempts
                && (store.db.attempts[q.id].status == Pending ==>
                      Appendable(body, old(conn.inbound), old(conn.readPlan)) && body.event.id in store.db.events)
      ensures alone && Quiet(old(store.faults)) && ProperHash(store.oracle) && old(store.db).attempts[q.id].status == Pending ==>
                var fate := FateOf(old(store.db), q, body, old(conn.inbound), old(conn.readPlan), store.oracle);
                && q.id in store.db.attempts && Fated(store.db.attempts[q.id], fate)
                && FatedError(q, fate, Appendable(body, old(conn.inbound), old(conn.readPlan)), reply)
                && (fate == Completes && Reliable(old(conn.writePlan)) && |old(conn.inbound)| >= HEADER_LENGTH
                    && Fits(codec, Acknowledgement(bodies, old(store.db), q, body, old(conn.inbound)[HEADER_LENGTH..], store.oracle)) ==>
                      !drop)
    {
      hide Journal.Inv, Journal.Preserved, Journal.Through, Sent, Sending, Acknowledged, Header, Declared, EvidenceLength;
      hide AppendFate, Fits, Fill, ProperHash, Drawn, Deliver;
      evidence, result := [], AppendResult(false, 0, "");
      ghost var start, o, inbound, consumed := store.db, store.oracle, conn.inbound, conn.consumed;
      Journal.ThroughNothing(start, o);
      Interference();
      Journal.ThroughBoth(start, start, store.db, o);
      ghost var db := store.db;
      AttemptKept(start, db, q.id);
      var declared := ReadEvidenceHeader(conn);
      if declared.Failed? || declared.value != body.payloadSize || declared.value > MAX_INT64 {
        FailCapture(conn, q.id, HeaderStage, ErrorResponse(q.id, "invalid_request", "capture evidence is invalid"), now);
        Journal.ThroughBoth(start, db, store.db, o);
        return true, InvalidEvidence(q.id), [], result;
      }
      ghost var rest, data := conn.inbound, [];
      BehindHeader(inbound, body.payloadSize, rest);
      ghost var plan := conn.readPlan;
      drop, reply, data, result := AppendEvidence(conn, q, body, now);
      if !drop { DrawnOn(inbound, old(conn.readPlan), rest, plan, conn.inbound, conn.readPlan); }
      Journal.ThroughBoth(start, db, store.db, o);
      if reply.status == "ok" {
        evidence := Header(body.payloadSize) + data;
        EvidenceTaken(inbound, consumed, body.payloadSize, rest, data, conn.inbound, conn.consumed);
      }
    }

    // What the reply to a begun capture says.
    ghost predicate Answered(db: Tables, q: Request, body: CaptureBody, evidence: bytes, result: AppendResult, reply: Response)
      reads this, store
    {
      || reply.status == "error"
      || (Acknowledged(db, q, body, evidence, result, store.oracle) && reply == OkResponse(bodies, q.id, Captured(result)))
    }

    // The evidence behind the header, and the end.
    method AppendEvidence(conn: Stream, q: Request, body: CaptureBody, now: Instant)
      returns (drop: bool, ghost reply: Response, ghost data: bytes, ghost result: AppendResult)
      requires Journal.Inv(store.db, store.oracle) && ValidCapture(body) && body.payloadSize <= MAX_INT64
      requires q.id in store.db.attempts && Attempts.SameAttempt(store.db.attempts[q.id], AttemptOf(q, body))
      modifies store, conn
      ensures |conn.inbound| <= |old(conn.inbound)|
      ensures Journal.Inv(store.db, store.oracle) && Journal.Through(old(store.db), store.db, store.oracle)
      ensures Sending(old(conn.outbound), conn.outbound, FrameOf(codec, reply))
      ensures Answered(store.db, q, body, Header(body.payloadSize) + data, result, reply)
      ensures reply.status == "error" ==>
                AppendFails(q, body, Deliver(old(conn.inbound), old(conn.readPlan), body.payloadSize as nat).Delivered?, store.db, reply)
      ensures reply.status == "ok" ==>
                && |data| == body.payloadSize as nat <= |old(conn.inbound)| && data == old(conn.inbound)[..body.payloadSize]
                && Advanced(old(conn.inbound), old(conn.consumed), data, conn.inbound, conn.consumed)
                && Drawn(old(conn.inbound), old(conn.readPlan), conn.inbound, conn.readPlan)
      ensures !drop ==>
                && reply.status == "ok" && Sent(codec, reply, old(conn.outbound), conn.outbound)
                && (Quiet(old(store.faults)) ==> Quiet(store.faults)) && (Reliable(old(conn.writePlan)) ==> Reliable(conn.writePlan))
      ensures Quiet(old(store.faults)) ==>
                && q.id in store.db.attempts
                && (store.db.attempts[q.id].status == Pending ==>
                      Deliver(old(conn.inbound), old(conn.readPlan), body.payloadSize as nat).Delivered? && body.event.id in store.db.events)
      ensures alone && Quiet(old(store.faults)) && ProperHash(store.oracle) && old(store.db).attempts[q.id].status == Pending ==>
                var fate := AppendFate(old(store.db), EventOf(q, body), body.payloadSize, old(conn.inbound), old(conn.readPlan), store.oracle);
                && q.id in store.db.attempts && Fated(store.db.attempts[q.id], fate)
                && FatedError(q, fate, Deliver(old(conn.inbound), old(conn.readPlan), body.payloadSize as nat).Delivered?, reply)
                && (fate == Completes && Reliable(old(conn.writePlan))
                    && Fits(codec, Acknowledgement(bodies, old(store.db), q, body, old(conn.inbound), store.oracle)) ==>
                      !drop)
    {
      hide Journal.Inv, Journal.Preserved, Journal.Through, Sent, Sending, Acknowledged, Ingested, Header, Verified;
      hide AppendFate, Readied, Fits, ProperHash, Drawn, Deliver;
      data, result := [], AppendResult(false, 0, "");
      ghost var start, o, inbound := store.db, store.oracle, conn.inbound;
      ghost var sure := alone && Quiet(store.faults) && ProperHash(o) && start.attempts[q.id].status == Pending;
      ghost var fate := AppendFate(start, EventOf(q, body), body.payloadSize, inbound, conn.readPlan, o);
      var appended := Append(EventOf(q, body), conn, body.payloadSize, now);
      ghost var db := store.db;
      AttemptKept(start, db, q.id);
      if appended.Err? {
        FailCapture(conn, q.id, AppendStage, StorageErrorResponse(q.id, appended.error), now);
        Journal.ThroughBoth(start, db, store.db, o);
        return true, StorageErrorResponse(q.id, appended.error), [], result;
      }
      if sure {
        AttemptReadied(start, db, q, body, fate == Completes, o);
      }
      data, result := inbound[..body.payloadSize], appended.value;
      drop, reply := FinishCapture(conn, q, body, appended.value, start, data, now);
      Journal.ThroughBoth(start, db, store.db, o);
    }

    // The end of it, once the evidence is appended.
    method FinishCapture(conn: Stream, q: Request, body: CaptureBody, result: AppendResult, ghost begun: Tables, ghost data: bytes, now: Instant)
      returns (drop: bool, ghost reply: Response)
      requires Journal.Inv(store.db, store.oracle) && Journal.Preserved(begun, store.db)
      requires q.id in begun.attempts && Attempts.SameAttempt(begun.attempts[q.id], AttemptOf(q, body)) && q.id in store.db.attempts
      requires Ingested(store.db, EventOf(q, body), data, result, store.oracle) && |data| == body.payloadSize as nat
      requires result == AppendResult(result.alreadyPresent, body.payloadSize, store.oracle.sha256(data))
      modifies store, conn`outbound, conn`writePlan
      ensures Journal.Inv(store.db, store.oracle) && Journal.Through(old(store.db), store.db, store.oracle)
      ensures Sending(old(conn.outbound), conn.outbound, FrameOf(codec, reply))
      ensures Answered(store.db, q, body, Header(body.payloadSize) + data, result, reply)
      ensures !drop ==>
                && reply.status == "ok" && Sent(codec, reply, old(conn.outbound), conn.outbound)
                && (Quiet(old(store.faults)) ==> Quiet(store.faults)) && (Reliable(old(conn.writePlan)) ==> Reliable(conn.writePlan))
      ensures reply.status == "error" ==> reply == Internal(q.id)
      ensures q.id in store.db.attempts && body.event.id in store.db.events
      ensures alone && Quiet(old(store.faults)) && old(store.db).attempts[q.id].status == Pending ==>
                if Verified(old(store.db), old(store.db).attempts[q.id], store.oracle)
                then
                  && store.db.attempts[q.id].status == Completed && reply.status == "ok"
                  && (Reliable(old(conn.writePlan)) && Fits(codec, OkResponse(bodies, q.id, Captured(result))) ==> !drop)
                else store.db.attempts[q.id].status == Pending && reply == Internal(q.id)
    {
      hide Journal.Inv, Journal.Preserved, Journal.Through, Sent, Sending, Acknowledged, Ingested, Header, Verified;
      ghost var start, o := store.db, store.oracle;
      Interference();
      ghost var db := store.db;
      var completed := Complete(q.id, now);
      Journal.ThroughBoth(start, db, store.db, o);
      StillThere(start, db, store.db, q.id, EventOf(q, body), data, result, o);
      if completed.Err? {
        drop := WriteError(conn, q.id, "internal", "internal server error");
        return true, Internal(q.id);
      }
      KeptThrough(start, db, store.db, o);
      CaptureIsAcknowledged(begun, start, store.db, q, body, data, result, o);
      drop := WriteOK(conn, q.id, Captured(result));
      reply := OkResponse(bodies, q.id, Captured(result));
    }

    // ---------- reads ----------

    method EventMetadata(conn: Stream, q: Request) returns (drop: bool, ghost reply: Response)
      requires Schema(store.db)
      modifies store`faults, conn`outbound, conn`writePlan
      ensures MetadataAnswer(bodies, store.db, Quiet(old(store.faults)), q, reply)
      ensures Sending(old(conn.outbound), conn.outbound, FrameOf(codec, reply))
      ensures !drop ==> Sent(codec, reply, old(conn.outbound), conn.outbound)
      ensures Reliable(old(conn.writePlan)) && Fits(codec, reply) ==> !drop
      ensures Quiet(old(store.faults)) ==> Quiet(store.faults)
      ensures Reliable(old(conn.writePlan)) ==> Reliable(conn.writePlan)
      ensures Quiet(old(store.faults)) ==> reply != StorageErrorResponse(q.id, Fault)
    {
      hide Sent, Sending;
      var id := bodies.eventId(q.body);
      if id == None || id.value == "" {
        drop := WriteError(conn, q.id, "invalid_request", "event metadata request is invalid");
        return drop, ErrorResponse(q.id, "invalid_request", "event metadata request is invalid");
      }
      var metadata := store.EventMetadata(id.value);
      if metadata.Err? {
        drop := WriteStorageError(conn, q.id, metadata.error);
        return drop, StorageErrorResponse(q.id, metadata.error);
      }
      drop := WriteOK(conn, q.id, EventInfo(id.value, metadata.value));
      reply := OkResponse(bodies, q.id, EventInfo(id.value, metadata.value));
    }

    method SearchEvents(conn: Stream, q: Request) returns (drop: bool, ghost reply: Response)
      requires Journal.Inv(store.db, store.oracle)
      modifies store`faults, conn`outbound, conn`writePlan
      ensures SearchAnswer(bodies, store.db, Quiet(old(store.faults)), store.oracle, q, reply)
      ensures Sending(old(conn.outbound), conn.outbound, FrameOf(codec, reply))
      ensures !drop ==> Sent(codec, reply, old(conn.outbound), conn.outbound)
      ensures Reliable(old(conn.writePlan)) && Fits(codec, reply) ==> !drop
      ensures Quiet(old(store.faults)) ==> Quiet(store.faults)
      ensures Reliable(old(conn.writePlan)) ==> Reliable(conn.writePlan)
      ensures Quiet(old(store.faults)) ==> reply != StorageErrorResponse(q.id, Fault)
    {
      hide Sent, Sending, Journal.EvidenceInv, Journal.AttemptInv, Search.MatchingKeys, Search.ScannedKeys, Search.Cut;
      Journal.SchemaHolds(store.db, store.oracle);
      var body := bodies.search(q.body);
      if body == None || body.value.0 == "" || |body.value.0| > MAX_SEARCH_QUERY
         || body.value.1 < 0 || body.value.1 > MAX_SEARCH_RESULTS {
        drop := WriteError(conn, q.id, "invalid_request", "search request is invalid");
        return drop, ErrorResponse(q.id, "invalid_request", "search request is invalid");
      }
      var events := Search.SearchEvents(store, body.value.0, if body.value.1 == 0 then MAX_SEARCH_RESULTS else body.value.1);
      if events.Err? {
        drop := WriteStorageError(conn, q.id, events.error);
        return drop, StorageErrorResponse(q.id, events.error);
      }
      Search.SearchIsScan(store.db, body.value.0, store.oracle);
      drop := WriteOK(conn, q.id, Events(events.value));
      reply := OkResponse(bodies, q.id, Events(events.value));
    }

    /** Replies with an error frame, or with metadata, the page's length, and exactly that many bytes of the
        page; a page that cannot be written in full ends the connection. Other transactions may come between
        the two queries; the event cannot have changed. */
    method ReadPayload(conn: Stream, q: Request) returns (drop: bool, ghost reply: bytes)
      requires Journal.Inv(store.db, store.oracle)
      modifies store, conn`outbound, conn`writePlan
      ensures Journal.Inv(store.db, store.oracle) && Journal.Through(old(store.db), store.db, store.oracle)
      ensures Sending(old(conn.outbound), conn.outbound, reply)
      ensures reply == [] || PayloadSet(codec, bodies, store.db, Quiet(old(store.faults)), q, reply)
      ensures conn.outbound == old(conn.outbound) + reply && reply != [] ==>
                PayloadAnswer(codec, bodies, store.db, Quiet(old(store.faults)), q, reply)
      ensures !drop ==> conn.outbound == old(conn.outbound) + reply && reply != []
      ensures Quiet(old(store.faults)) ==> Quiet(store.faults)
      ensures Reliable(old(conn.writePlan)) ==> Reliable(conn.writePlan)
      ensures Quiet(old(store.faults)) && Reliable(old(conn.writePlan)) && PageThere(bodies, old(store.db), q)
              && Fits(codec, PayloadResponse(bodies, old(store.db), q)) ==>
                !drop
    {
      hide Journal.Inv, Journal.Preserved, Journal.Through, Sent, Sending, PageShape, PageReply, FrameOf;
      reply := [];
      ghost var start, o, before := store.db, store.oracle, conn.outbound;
      Journal.ThroughNothing(start, o);
      Journal.SchemaHolds(start, o);
      var parsed := bodies.payload(q.body);
      if parsed == None || parsed.value.eventId == "" {
        drop := WriteError(conn, q.id, "invalid_request", "payload request is invalid");
        reply := FrameOf(codec, InvalidPayload(q.id));
        FrameGoes(codec, InvalidPayload(q.id), drop, before, conn.outbound);
        return;
      }
      var query := parsed.value;
      var metadata := store.EventMetadata(query.eventId);
      if metadata.Err? {
        drop := WriteStorageError(conn, q.id, metadata.error);
        reply := FrameOf(codec, StorageErrorResponse(q.id, metadata.error));
        FrameGoes(codec, StorageErrorResponse(q.id, metadata.error), drop, before, conn.outbound);
        return;
      }
      var total := metadata.value.totalSize;
      var length := ServerLength(total, query.offset, query.limit);
      Interference();
      Journal.ThroughBoth(start, start, store.db, o);
      Journal.SchemaHolds(store.db, o);
      EvidenceKept(start, store.db, query.eventId);
      drop := WriteOK(conn, q.id, PayloadInfo(PayloadMetadata(query.eventId, total, metadata.value.sha256, query.offset, query.limit)));
      reply := PageFor(codec, bodies, store.db, q.id, query, before, conn.outbound);
      if drop { return true, reply; }
      ghost var sent := conn.outbound;
      var err := WriteEvidenceHeader(conn, length);
      ghost var headed := conn.outbound;
      ghost var k :| 0 <= k <= HEADER_LENGTH && headed == sent + Header(length)[..k];
      SendingBy(sent, headed, Header(length), k);
      PageHeaded(codec, bodies, store.db, q.id, query, before, sent, headed, reply);
      if err.Some? { return true, reply; }
      var page := store.ReadEventEvidence(query.eventId, query.offset, query.limit, conn);
      PageSent(codec, bodies, store.db, q.id, query, before, sent, headed, conn.outbound, page.Ok?, reply);
      drop := page.Err?;
    }

    // ---------- the request loop ----------

    /** Handles one request. If the connection is kept, the request's evidence, if any, has been consumed,
        one whole reply has been sent, the right one, and nothing else; if not, what went out is the front of a
        reply, which if whole tells the truth. */
    method HandleRequest(conn: Stream, q: Request, now: Instant)
      returns (drop: bool, ghost evidence: bytes, ghost reply: bytes)
      requires Journal.Inv(store.db, store.oracle) && Faithful(codec)
      modifies store, conn
      ensures Journal.Inv(store.db, store.oracle) && Journal.Through(old(store.db), store.db, store.oracle)
      ensures |conn.inbound| <= |old(conn.inbound)| && evidence <= old(conn.inbound)
      ensures Sending(old(conn.outbound), conn.outbound, reply)
      ensures reply == [] || IsReply(codec, q.operation == READ_PAYLOAD, reply)
      ensures conn.outbound == old(conn.outbound) + reply && reply != [] ==>
                Told(codec, bodies, Scene(old(store.db), old(conn.inbound), old(conn.readPlan), Quiet(old(store.faults)), alone),
                     store.db, store.oracle, q, evidence, reply)
      ensures !drop ==>
                && Advanced(old(conn.inbound), old(conn.consumed), evidence, conn.inbound, conn.consumed)
                && conn.outbound == old(conn.outbound) + reply
                && RightReply(codec, bodies, Scene(old(store.db), old(conn.inbound), old(conn.readPlan), Quiet(old(store.faults)), alone),
                              store.db, store.oracle, q, evidence, reply)
                && Drawn(old(conn.inbound), old(conn.readPlan), conn.inbound, conn.readPlan)
                && (Quiet(old(store.faults)) ==> Quiet(store.faults)) && (Reliable(old(conn.writePlan)) ==> Reliable(conn.writePlan))
      ensures Keeps(codec, bodies, store.oracle, alone, Quiet(old(store.faults)), running, old(store.db), q,
                    old(conn.inbound), old(conn.readPlan), old(conn.writePlan)) ==>
                !drop
    {
      hide Journal.Inv, Journal.Preserved, Journal.Through, Sent, Sending, Framed, FrameOf, CaptureAnswer, PayloadAnswer, PlainAnswer;
      hide IsReply, Faithful, CaptureUnhindered, PayloadSet, ToldOfCapture;
      ghost var scene := Scene(store.db, conn.inbound, conn.readPlan, Quiet(store.faults), alone);
      evidence, reply := [], [];
      ghost var before, o := conn.outbound, store.oracle;
      Journal.ThroughNothing(store.db, o);
      assert conn.consumed == conn.consumed + [] && conn.inbound == [] + conn.inbound;
      ghost var r: Response;
      if q.version != VERSION {
        drop := WriteError(conn, q.id, "unsupported_protocol", "protocol version is not supported");
        r := UnsupportedProtocol(q.id);
      } else if q.id == "" || q.operation == "" {
        drop := WriteError(conn, q.id, "invalid_request", "request is invalid");
        r := InvalidRequest(q.id);
      } else if q.operation == CAPTURE {
        drop, r, evidence := CaptureAppend(conn, q, now);
      } else if q.operation == READ_PAYLOAD {
        drop, reply := ReadPayload(conn, q);
        PayloadTold(codec, bodies, scene, store.db, o, q, reply, before, conn.outbound);
        return;
      } else {
        drop, r := Answer(conn, q);
      }
      reply := FrameOf(codec, r);
      FrameGoes(codec, r, drop, before, conn.outbound);
      if reply != [] {
        FrameTold(codec, bodies, scene, store.db, o, q, evidence, r, reply);
      }
    }

    // The operations with a plain reply.
    method Answer(conn: Stream, q: Request) returns (drop: bool, ghost reply: Response)
      requires Journal.Inv(store.db, store.oracle)
      modifies store`faults, conn`outbound, conn`writePlan
      ensures PlainAnswer(bodies, store.db, Quiet(old(store.faults)), store.oracle, q, reply)
      ensures Sending(old(conn.outbound), conn.outbound, FrameOf(codec, reply))
      ensures !drop ==> Sent(codec, reply, old(conn.outbound), conn.outbound)
      ensures Reliable(old(conn.writePlan)) && Fits(codec, reply) && (running || !AsksForHealth(q)) ==> !drop
      ensures !running && AsksForHealth(q) ==> drop && conn.outbound == old(conn.outbound)
      ensures Quiet(old(store.faults)) ==> Quiet(store.faults)
      ensures Reliable(old(conn.writePlan)) ==> Reliable(conn.writePlan)
      ensures Quiet(old(store.faults)) ==> reply != StorageErrorResponse(q.id, Fault)
    {
      hide Sent, Sending, FrameOf, Journal.Inv, MetadataAnswer, SearchAnswer;
      Journal.SchemaHolds(store.db, store.oracle);
      reply := OkResponse(bodies, q.id, Health);
      SendingAll(conn.outbound, conn.outbound, FrameOf(codec, reply));
      if q.operation == "system.hello" || q.operation == "system.health" {
        if !running { return true, reply; }
        drop := WriteOK(conn, q.id, Health);
      } else if q.operation == "system.info" {
        reply := OkResponse(bodies, q.id, Info);
        SendingAll(conn.outbound, conn.outbound, FrameOf(codec, reply));
        if !running { return true, reply; }
        drop := WriteOK(conn, q.id, Info);
      } else if q.operation == "event.metadata" {
        drop, reply := EventMetadata(conn, q);
      } else if q.operation == "search.events" {
        drop, reply := SearchEvents(conn, q);
      } else {
        drop := WriteError(conn, q.id, "unsupported_operation", "operation is not supported");
        reply := ErrorResponse(q.id, "unsupported_operation", "operation is not supported");
      }
    }

    /** One turn of the request loop. */
    method ServeNext(conn: Stream, now: Instant) returns (keep: bool, ghost t: Turn)
      requires Journal.Inv(store.db, store.oracle) && Faithful(codec)
      modifies store, conn
      ensures Journal.Inv(store.db, store.oracle) && Journal.Through(old(store.db), t.db, store.oracle) && t.db == store.db
      ensures |t.payload| <= MAX_CONTROL_FRAME && t.scene == SceneOf(alone, old(HeadOf(conn)))
      ensures keep ==>
                && RightTurn(codec, bodies, store.oracle, t)
                && Advanced(old(conn.inbound), old(conn.consumed), ExchangeOf(t).up, conn.inbound, conn.consumed)
                && conn.outbound == old(conn.outbound) + t.reply && |conn.inbound| < |old(conn.inbound)|
                && Drawn(old(conn.inbound), old(conn.readPlan), conn.inbound, conn.readPlan)
                && (Quiet(old(store.faults)) ==> Quiet(store.faults)) && (Reliable(old(conn.writePlan)) ==> Reliable(conn.writePlan))
      ensures !keep ==>
                && old(conn.outbound) <= conn.outbound
                && RightEnd(codec, bodies, store.oracle, t, conn.outbound[|old(conn.outbound)|..])
                && (t.asked.Some? ==> ExchangeOf(t).up <= old(conn.inbound))
      ensures SurelyKept(codec, bodies, store.oracle, alone, old(HeadOf(conn))) ==> keep
    {
      hide Journal.Inv, Journal.Through, Faithful, Served, RightReply, Told, ServerExchange, IsReply, Keeps, Sending, FramePlan;
      hide Framing.Complete, Payload, Tail, Frame;
      ghost var before, consumed, inbound := conn.outbound, conn.consumed, conn.inbound;
      ghost var scene := SceneOf(alone, HeadOf(conn));
      t := Turn([], None, [], [], store.db, scene);
      Journal.ThroughNothing(store.db, store.oracle);
      assert conn.outbound[|before|..] == [];
      var payload := ReadFrame(conn);
      if payload.Failed? { return false, t; }
      var request := codec.decodeRequest(payload.value);
      if request == None { return false, t; }
      ghost var rest := conn.inbound;
      var drop, evidence, reply := HandleRequest(conn, request.value, now);
      t := Turn(payload.value, request, evidence, reply, store.db, scene);
      keep := !drop;
      if keep {
        RightIsServed(codec, bodies, scene, store.db, store.oracle, request.value, evidence, reply);
        ExchangeServed(codec, payload.value, request.value, evidence, reply);
        Reassociate(Frame(payload.value), evidence, conn.inbound);
        Reassociate(consumed, Frame(payload.value), evidence);
      } else {
        SendingFront(before, conn.outbound, reply);
        assert inbound == Frame(payload.value) + rest;
        assert Frame(payload.value) + evidence <= Frame(payload.value) + rest;
      }
    }

    /** Serves a connection until a turn does not keep it. A turn that is sure to keep it does not end it, whatever the
        clock tells each turn. */
    method ServeConnection(conn: Stream, clock: nat -> Instant)
      returns (ghost turns: seq<Turn>, ghost heads: seq<Head>, ghost end: Turn)
      requires Journal.Inv(store.db, store.oracle) && Faithful(codec)
      requires conn.consumed == [] && conn.outbound == []
      modifies this`running, store, conn
      ensures Journal.Inv(store.db, store.oracle) && end.db == store.db
      ensures ServedToEnd(codec, bodies, store.oracle, alone, old(HeadOf(conn)), conn.outbound, turns, heads, end)
    {
      hide Journal.Inv, Journal.Through, Faithful, RightTurn, RightEnd, SurelyKept, Conversation, Drawn;
      ghost var start, o := HeadOf(conn), store.oracle;
      Meanwhile();
      turns := [];
      ghost var head := HeadOf(conn);
      heads := [head];
      ConversationStarts(codec, bodies, o, alone, head);
      var k := 0;
      var keep := true;
      end := Turn([], None, [], [], store.db, SceneOf(alone, head));
      while keep
        invariant Journal.Inv(store.db, o) && |heads| == |turns| + 1
        invariant Conversation(codec, bodies, o, alone, start.inbound, turns, heads)
        invariant Opens(o, alone, start, heads[0])
        invariant heads[|turns|] == head
        invariant keep ==> head == HeadOf(conn)
        invariant !keep ==> Ends(codec, bodies, o, alone, conn.outbound, head, end) && end.db == store.db
        decreases keep, |conn.inbound|
      {
        ghost var t;
        keep, t := ServeNext(conn, clock(k));
        k := k + 1;
        if keep {
          Meanwhile();
          ghost var next := HeadOf(conn);
          ConversationGrows(codec, bodies, o, alone, start.inbound, turns, heads, t, next);
          turns, heads, head := turns + [t], heads + [next], next;
        } else {
          end := t;
        }
      }
    }
  }

  // ---------- lemmas for the handlers ----------

  lemma EventsKept(before: Tables, after: Tables, o: Oracle)
    requires Journal.Inv(before, o) && Journal.Preserved(before, after)
    ensures forall e :: e in before.events ==> e in after.events
  {
    Journal.SchemaHolds(before, o);
    hide Journal.Inv;
  }

  lemma FateUnchanged(b: Bodies, start: Tables, db: Tables, q: Request, body: CaptureBody, inbound: bytes, plan: seq<ReadStep>, o: Oracle)
    requires start.events == db.events && start.chunks == db.chunks
    ensures FateOf(start, q, body, inbound, plan, o) == FateOf(db, q, body, inbound, plan, o)
    ensures |inbound| >= HEADER_LENGTH ==>
              Acknowledgement(b, start, q, body, inbound[HEADER_LENGTH..], o) == Acknowledgement(b, db, q, body, inbound[HEADER_LENGTH..], o)
  {
  }

  lemma PendingIsUnverified(fate: Fate)
    ensures forall a :: Fated(a, fate) ==> (a.status == Pending <==> fate == Unverified)
  {
  }

  lemma BehindHeader(inbound: bytes, length: uint64, rest: bytes)
    requires inbound == Header(length) + rest
    ensures inbound[HEADER_LENGTH..] == rest
  {
  }

  lemma EvidenceTaken(inbound: bytes, consumed: bytes, size: uint64, rest: bytes, data: bytes, left: bytes, consumedNow: bytes)
    requires inbound == Header(size) + rest && |data| == size as nat <= |rest| && data == rest[..size]
    requires Advanced(rest, consumed + Header(size), data, left, consumedNow)
    ensures Header(size) + data <= inbound && Advanced(inbound, consumed, Header(size) + data, left, consumedNow)
    ensures inbound[HEADER_LENGTH..] == rest
  {
    Reassociate(Header(size), data, left);
    Reassociate(consumed, Header(size), data);
  }

  lemma SendingBy(before: bytes, after: bytes, whole: bytes, k: nat)
    requires k <= |whole| && after == before + whole[..k]
    ensures Sending(before, after, whole)
  {
  }

  // A frame that goes out whole is the bytes of its reply.
  lemma FrameGoes(c: Codec, r: Response, drop: bool, before: bytes, after: bytes)
    requires Sending(before, after, FrameOf(c, r)) && (!drop ==> Sent(c, r, before, after))
    ensures FrameOf(c, r) != [] ==> Framed(c, r, FrameOf(c, r))
    ensures !drop ==> after == before + FrameOf(c, r) && FrameOf(c, r) != []
  {
    assert Fits(c, r) ==> |Frame(c.encodeResponse(r))| >= HEADER_LENGTH;
  }

  // What a payload read sets out to send: the page, or the error that fits.
  ghost predicate PayloadSet(c: Codec, b: Bodies, db: Tables, quiet: bool, q: Request, reply: bytes) {
    match b.payload(q.body)
    case None => Framed(c, InvalidPayload(q.id), reply)
    case Some(query) =>
      if query.eventId == "" then Framed(c, InvalidPayload(q.id), reply)
      else
        || (!quiet && Framed(c, StorageErrorResponse(q.id, Fault), reply))
        || (if query.eventId in db.events then PageShape(c, b, db, q.id, query, reply)
            else Framed(c, StorageErrorResponse(q.id, NotFound), reply))
  }

  lemma PageFor(c: Codec, b: Bodies, db: Tables, id: string, query: PayloadQuery, before: bytes, after: bytes) returns (reply: bytes)
    requires query.eventId in db.events && query.eventId in db.chunks
    requires var ok := PageResponse(b, id, db.events[query.eventId], query); Sending(before, after, FrameOf(c, ok))
    ensures reply == [] <==> !Fits(c, PageResponse(b, id, db.events[query.eventId], query))
    ensures reply != [] ==> PageShape(c, b, db, id, query, reply) && after != before + reply
    ensures Sending(before, after, reply)
  {
    var rows, row := db.chunks[query.eventId], db.events[query.eventId];
    var ok, n := PageResponse(b, id, row, query), ClientExpected(row.actual, query.offset, query.limit);
    var k :| 0 <= k <= |FrameOf(c, ok)| && after == before + FrameOf(c, ok)[..k];
    if Fits(c, ok) {
      reply := FrameOf(c, ok) + (Header(n) + Positional(rows, query.offset as nat, query.offset as nat + n as nat));
      assert FrameOf(c, ok)[..k] == reply[..k];
    } else {
      reply := [];
    }
  }

  lemma PageHeaded(c: Codec, b: Bodies, db: Tables, id: string, query: PayloadQuery, before: bytes, sent: bytes, headed: bytes, reply: bytes)
    requires PageShape(c, b, db, id, query, reply)
    requires Sent(c, PageResponse(b, id, db.events[query.eventId], query), before, sent)
    requires Sending(sent, headed, Header(ServerLength(db.events[query.eventId].actual, query.offset, query.limit)))
    ensures Sending(before, headed, reply)
    ensures headed == before + reply ==> PageReply(c, b, db, id, query, reply)
  {
    var rows, row := db.chunks[query.eventId], db.events[query.eventId];
    LengthsAgree(row.actual, query.offset, query.limit);
    var n := ClientExpected(row.actual, query.offset, query.limit);
    var frame, header := FrameOf(c, PageResponse(b, id, row, query)), Header(n);
    var slice := Positional(rows, query.offset as nat, query.offset as nat + n as nat);
    hide FrameOf, Header, PageResponse, Positional;
    var k :| 0 <= k <= |header| && headed == sent + header[..k];
    assert reply == frame + (header + slice);
    FrontOf(before, frame, header, slice, k, 0);
  }

  lemma FrontOf(before: bytes, frame: bytes, header: bytes, slice: bytes, k: nat, j: nat)
    requires k <= |header| && j <= |slice| && (j > 0 ==> k == |header|)
    ensures before + frame + header[..k] + slice[..j] == before + (frame + (header + slice))[..|frame| + k + j]
    ensures j == 0 ==> before + frame + header[..k] == before + (frame + (header + slice))[..|frame| + k]
  {
    assert (frame + (header + slice))[..|frame| + k + j] == frame + header[..k] + slice[..j];
  }

  lemma PageSent(c: Codec, b: Bodies, db: Tables, id: string, query: PayloadQuery, before: bytes, sent: bytes, headed: bytes, after: bytes,
                 ok: bool, reply: bytes)
    requires PageShape(c, b, db, id, query, reply)
    requires Sent(c, PageResponse(b, id, db.events[query.eventId], query), before, sent)
    requires headed == sent + Header(ServerLength(db.events[query.eventId].actual, query.offset, query.limit))
    requires var rows, row := db.chunks[query.eventId], db.events[query.eventId];
             if ok then PageOutcome(rows, row.actual as nat, query.offset as nat, query.limit as nat, headed, after)
             else PartialPage(rows, row.actual as nat, query.offset as nat, query.limit as nat, headed, after)
    ensures Sending(before, after, reply)
    ensures after == before + reply ==> PageReply(c, b, db, id, query, reply)
    ensures ok ==> after == before + reply
  {
    var rows, row := db.chunks[query.eventId], db.events[query.eventId];
    LengthsAgree(row.actual, query.offset, query.limit);
    var n := ClientExpected(row.actual, query.offset, query.limit);
    var frame, header, offset := FrameOf(c, PageResponse(b, id, row, query)), Header(n), query.offset as nat;
    var slice := Positional(rows, offset, offset + n as nat);
    hide FrameOf, Header, PageResponse, Positional, Covered;
    assert reply == frame + (header + slice) && headed == before + frame + header;
    var stop: nat := offset + n as nat;
    if !ok {
      stop :|
        && offset <= stop <= offset + n as nat
        && (offset < stop ==> Covered(rows, row.actual as nat, offset / CHUNK_SIZE, (stop - 1) / CHUNK_SIZE + 1))
        && after == headed + Positional(rows, offset, stop);
    }
    PositionalTake(rows, offset, n as nat, stop - offset);
    assert header[..|header|] == header && after == before + frame + header + slice[..stop - offset];
    FrontOf(before, frame, header, slice, |header|, stop - offset);
    assert reply[..|reply|] == reply;
  }

  lemma PayloadTold(c: Codec, b: Bodies, scene: Scene, db: Tables, o: Oracle, q: Request, reply: bytes, before: bytes, after: bytes)
    requires Faithful(c) && q.operation == READ_PAYLOAD && q.version == VERSION && q.id != ""
    requires reply == [] || PayloadSet(c, b, db, scene.quiet, q, reply)
    requires after == before + reply && reply != [] ==> PayloadAnswer(c, b, db, scene.quiet, q, reply)
    ensures reply == [] || IsReply(c, true, reply)
    ensures after == before + reply && reply != [] ==> Told(c, b, scene, db, o, q, [], reply) && RightReply(c, b, scene, db, o, q, [], reply)
  {
    hide Faithful, IsReply, Framed, PageShape, PayloadAnswer;
    if reply != [] {
      if r :| r in {InvalidPayload(q.id), StorageErrorResponse(q.id, Fault), StorageErrorResponse(q.id, NotFound)} && Framed(c, r, reply) {
        FrameServed(c, r, true, reply);
      } else {
        PageServed(c, b, db, q.id, b.payload(q.body).value, reply);
      }
    }
  }

  lemma FrameTold(c: Codec, b: Bodies, scene: Scene, db: Tables, o: Oracle, q: Request, evidence: bytes, r: Response, reply: bytes)
    requires Faithful(c) && Framed(c, r, reply)
    requires if q.version != VERSION then r == UnsupportedProtocol(q.id)
             else if q.id == "" || q.operation == "" then r == InvalidRequest(q.id)
             else if q.operation == CAPTURE then ToldOfCapture(b, scene, db, o, q, evidence, r)
             else q.operation != READ_PAYLOAD && PlainAnswer(b, db, scene.quiet, o, q, r)
    ensures IsReply(c, q.operation == READ_PAYLOAD, reply)
    ensures Told(c, b, scene, db, o, q, evidence, reply)
    ensures (if TakesCapture(q) then CaptureAnswer(b, db, o, q, evidence, r) else evidence == []) ==>
              RightReply(c, b, scene, db, o, q, evidence, reply)
  {
    hide Faithful, IsReply, Framed, PlainAnswer, CaptureAnswer, CaptureFailure;
    FrameServed(c, r, q.operation == READ_PAYLOAD, reply);
  }

  // ---------- lemmas for the request loop ----------

  lemma ConversationStarts(c: Codec, b: Bodies, o: Oracle, alone: bool, head: Head)
    requires head.read == [] && head.sent == []
    ensures Conversation(c, b, o, alone, head.inbound, [], [head])
  {
    assert [] + head.inbound == head.inbound;
  }

  lemma ConversationGrows(c: Codec, b: Bodies, o: Oracle, alone: bool, inbound: bytes, turns: seq<Turn>, heads: seq<Head>, t: Turn, next: Head)
    requires Conversation(c, b, o, alone, inbound, turns, heads) && RightTurn(c, b, o, t)
    requires var head := heads[|turns|];
             && Advanced(head.inbound, head.read, ExchangeOf(t).up, next.inbound, next.read)
             && next.sent == head.sent + t.reply && Follows(o, alone, head, t, next)
    ensures Conversation(c, b, o, alone, inbound, turns + [t], heads + [next])
  {
    hide Follows, RightReply, ServerLog, ServerExchange;
    var n, turns', heads' := |turns|, turns + [t], heads + [next];
    assert turns[..n] == turns && turns'[..n + 1] == turns';
    LogGrows(c, b, o, turns, t, heads[n].read, heads[n].sent);
    Reassociate(heads[n].read, ExchangeOf(t).up, next.inbound);
    hide RightTurn, ExchangeOf, Exchanges;
    assert forall i :: 0 <= i <= n ==> turns'[..i] == turns[..i];
  }

  lemma LogGrows(c: Codec, b: Bodies, o: Oracle, turns: seq<Turn>, t: Turn, read: bytes, sent: bytes)
    requires forall i :: 0 <= i < |turns| ==> RightTurn(c, b, o, turns[i]) && |turns[i].payload| <= MAX_CONTROL_FRAME
    requires RightTurn(c, b, o, t)
    requires ServerLog(c, Exchanges(turns), read, sent)
    ensures ServerLog(c, Exchanges(turns + [t]), read + ExchangeOf(t).up, sent + t.reply)
  {
    hide RightReply, ServerExchange;
    LogSnoc(Exchanges(turns), ExchangeOf(t));
    assert Exchanges(turns + [t]) == Exchanges(turns) + [ExchangeOf(t)];
  }
}
