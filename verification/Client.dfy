/** The RPC client: one connection, reused while every operation reads its whole reply, and dropped
    ("poisoned") on any doubt. */
module Client {
  import opened Bytes
  import opened Streams
  import opened Framing
  import opened Wire
  import opened Rpc
  import opened Paging
  import opened Tables

  datatype Failure = Closed | NotStarted | Transport | Invalid | Rpc(error: ResponseError)
  datatype Outcome<T> = Success(value: T) | Failure(failure: Failure)

  // What a client knows how to make of bodies; JSON again.
  datatype Bodies = Bodies(encodeQuery: PayloadQuery -> bytes, metadata: bytes -> Option<PayloadMetadata>)

  predicate ValidResponse(r: Response, id: string) {
    && r.version == VERSION && r.id == id
    && match r.status
       case "ok" => r.error == None
       case "error" => r.error.Some? && r.error.value.code != "" && r.error.value.message != ""
       case _ => false
  }

  // A reply with evidence, as its parts.
  ghost predicate ReplyParts(reply: bytes, envelope: bytes, length: uint64, data: bytes) {
    |envelope| <= MAX_CONTROL_FRAME && |data| == length as nat && reply == Frame(envelope) + (Header(length) + data)
  }

  // An exchange that begins with this request, and nothing behind it.
  ghost predicate Asks(c: Codec, e: Exchange, q: Request) {
    |c.encodeRequest(q)| <= MAX_CONTROL_FRAME && e.up == Frame(c.encodeRequest(q))
  }

  // One frame whose envelope is this response.
  ghost predicate ReplyFrame(c: Codec, reply: bytes, r: Response) {
    exists envelope: bytes ::
      |envelope| <= MAX_CONTROL_FRAME && reply == Frame(envelope) && c.decodeResponse(envelope) == Some(r)
  }

  // A reply to a payload read that the client accepts: fitting metadata, and as many bytes as it implies.
  ghost predicate PageReceived(c: Codec, b: Bodies, query: PayloadQuery, reply: bytes, m: PayloadMetadata, data: bytes) {
    exists envelope: bytes, r: Response ::
      && c.decodeResponse(envelope) == Some(r) && r.status == "ok" && b.metadata(r.body) == Some(m)
      && m.eventId == query.eventId && m.offset == query.offset && m.limit == query.limit
      && ReplyParts(reply, envelope, ClientExpected(m.totalSize, query.offset, query.limit), data)
  }

  // The peer's next frame is a valid response to the request, and both directions work that far.
  ghost predicate Answered(c: Codec, q: Request, inbound: bytes, readPlan: seq<ReadStep>, writePlan: seq<WriteStep>) {
    && Reliable(writePlan) && |c.encodeRequest(q)| <= MAX_CONTROL_FRAME
    && Complete(inbound) && Provides(inbound, readPlan, HEADER_LENGTH + Declared(inbound))
    && c.decodeResponse(Payload(inbound)).Some? && ValidResponse(c.decodeResponse(Payload(inbound)).value, q.id)
  }

  // Such a response to a payload read is fitting metadata, the length it implies, and that many bytes.
  ghost predicate PageAnswered(c: Codec, b: Bodies, q: Request, query: PayloadQuery, inbound: bytes, readPlan: seq<ReadStep>,
                               writePlan: seq<WriteStep>)
  {
    && Answered(c, q, inbound, readPlan, writePlan)
    && var body := c.decodeResponse(Payload(inbound)).value.body;
    && c.decodeResponse(Payload(inbound)).value.status == "ok" && b.metadata(body).Some?
    && var m := b.metadata(body).value;
    && m.eventId == query.eventId && m.offset == query.offset && m.limit == query.limit && ValidSha256(m.sha256)
    && var expected := ClientExpected(m.totalSize, query.offset, query.limit);
    && expected <= MAX_INT64
    && EvidenceLength(Tail(inbound)).Some? && Declared(Tail(inbound)) == expected as nat
    && Provides(inbound, readPlan, HEADER_LENGTH + Declared(inbound) + HEADER_LENGTH + expected as nat)
  }

  // A writer that takes each buffer in one call; the copying of evidence does not write twice.
  ghost predicate TakesWhole(plan: seq<WriteStep>) {
    forall i :: 0 <= i < |plan| ==> plan[i].Accept? && plan[i].most >= COPY_BUFFER && plan[i].err == None
  }

  // The connection an operation uses.
  function Chosen(kept: Stream?, dialled: Stream?): Stream? { if kept != null then kept else dialled }

  class Client {
    const codec: Codec
    const bodies: Bodies
    var conn: Stream?
    var closed: bool
    ghost var log: seq<Exchange>

    // On the connection it keeps, the client has sent and read exactly its exchanges.
    ghost predicate Valid()
      reads this, conn
    {
      conn != null ==> ClientLog(codec, log, conn.outbound, conn.consumed)
    }

    constructor (codec: Codec, bodies: Bodies)
      ensures Valid() && conn == null && !closed && this.codec == codec && this.bodies == bodies
    {
      this.codec, this.bodies, conn, closed, log := codec, bodies, null, false, [];
    }

    method Close()
      modifies this
      ensures Valid() && closed && conn == null && log == old(log)
    {
      closed, conn := true, null;
    }

    method Poison()
      modifies this`conn
      ensures Valid() && conn == null
    {
      conn := null;
    }

    // The kept connection, or a newly dialled one; dialling may fail.
    method Connection(dialled: Stream?) returns (c: Stream?)
      requires Valid()
      requires dialled != null ==> dialled.outbound == [] && dialled.consumed == []
      modifies this`conn, this`log
      ensures Valid() && c == conn
      ensures c == null <==> closed || (old(conn) == null && dialled == null)
      ensures c != null ==> c == if old(conn) != null then old(conn) else dialled
      ensures c != null ==> log == if old(conn) != null then old(log) else []
    {
      if closed {
        conn := null;
        return null;
      }
      if conn == null && dialled != null {
        conn, log := dialled, [];
      }
      c := conn;
    }

    // Sends a request and reads the frame that answers it. On any doubt the connection is gone.
    method RoundTrip(q: Request) returns (answer: Option<Response>, ghost envelope: bytes)
      requires conn != null
      modifies this`conn, conn
      ensures conn == if answer.Some? then old(conn) else null
      ensures answer.Some? ==>
                && |codec.encodeRequest(q)| <= MAX_CONTROL_FRAME && |envelope| <= MAX_CONTROL_FRAME
                && conn.outbound == old(conn.outbound) + Frame(codec.encodeRequest(q))
                && conn.consumed == old(conn.consumed) + Frame(envelope)
                && old(conn.inbound) == Frame(envelope) + conn.inbound
                && codec.decodeResponse(envelope) == answer && ValidResponse(answer.value, q.id)
      ensures Answered(codec, q, old(conn.inbound), old(conn.readPlan), old(conn.writePlan)) ==>
                && answer.Some? && envelope == Payload(old(conn.inbound)) && conn.inbound == Tail(old(conn.inbound))
                && Steady(conn.readPlan)
                && |conn.readPlan| + HEADER_LENGTH + Declared(old(conn.inbound)) >= |old(conn.readPlan)|
    {
      envelope := [];
      var err := WriteFrame(conn, codec.encodeRequest(q));
      if err.Some? {
        Poison();
        return None, [];
      }
      var frame := ReadFrame(conn);
      if frame.Failed? {
        Poison();
        return None, [];
      }
      var response := codec.decodeResponse(frame.value);
      if response == None || !ValidResponse(response.value, q.id) {
        Poison();
        return None, [];
      }
      answer, envelope := response, frame.value;
    }

    /** One request and one reply frame. When the client keeps the connection it has had exactly one more
        exchange, or none because nothing was sent. */
    method Call(operation: string, body: bytes, id: string, ready: bool, decodes: bytes -> bool, dialled: Stream?)
      returns (r: Outcome<bytes>)
      requires Valid() && Faithful(codec) && operation != CAPTURE && operation != READ_PAYLOAD
      requires dialled != null ==> dialled.outbound == [] && dialled.consumed == []
      modifies this, conn, dialled
      ensures Valid()
      ensures r.Success? || (r.Failure? && r.failure.Rpc?) ==>
                && conn != null && log != []
                && Asks(codec, log[|log| - 1], Request(VERSION, id, operation, body))
                && exists response :: ReplyFrame(codec, log[|log| - 1].down, response) && ValidResponse(response, id)
                     && r == if response.status == "error" then Failure(Rpc(response.error.value)) else Success(response.body)
      ensures conn != null ==> Extends(if old(conn) != null then old(log) else [], log)
      ensures var c := old(Chosen(conn, dialled));
              ready && !old(closed) && c != null
              && Answered(codec, Request(VERSION, id, operation, body), old(c.inbound), old(c.readPlan), old(c.writePlan)) ==>
                var response := codec.decodeResponse(Payload(old(c.inbound))).value;
                && r == (if response.status == "error" then Failure(Rpc(response.error.value))
                         else if decodes(response.body) then Success(response.body) else Failure(Invalid))
                && conn == if r == Failure(Invalid) then null else c
    {
      hide ClientLog, Faithful, ReplyFrame, Extends, Answered, Payload, Complete;
      if !ready {
        NotExtended(if conn != null then log else []);
        return Failure(NotStarted);
      }
      var c := Connection(dialled);
      if c == null { return Failure(if closed then Closed else Transport); }
      ghost var base, sent, read := log, c.outbound, c.consumed;
      NotExtended(base);
      var q := Request(VERSION, id, operation, body);
      var answer, envelope := RoundTrip(q);
      if answer == None { return Failure(Transport); }
      var response := answer.value;
      PlainExchange(codec, base, sent, read, q, envelope, response);
      log := base + [Exchange(Frame(codec.encodeRequest(q)), Frame(envelope))];
      if response.status == "error" { return Failure(Rpc(response.error.value)); }
      if !decodes(response.body) {
        Poison();
        return Failure(Invalid);
      }
      r := Success(response.body);
    }

    /** Reads one page into destination. Success delivers exactly the bytes the metadata implies, and a kept
        connection has had exactly one more exchange, its evidence included. */
    method ReadPayload(query: PayloadQuery, id: string, ready: bool, dialled: Stream?, destination: Stream)
      returns (r: Outcome<PayloadMetadata>, ghost data: bytes)
      requires Valid() && Faithful(codec) && destination != conn && destination != dialled
      requires dialled != null ==> dialled.outbound == [] && dialled.consumed == []
      modifies this, conn, dialled, destination
      ensures Valid()
      ensures r.Success? ==>
                && conn != null && log != []
                && Asks(codec, log[|log| - 1], Request(VERSION, id, READ_PAYLOAD, bodies.encodeQuery(query)))
                && PageReceived(codec, bodies, query, log[|log| - 1].down, r.value, data) && ValidSha256(r.value.sha256)
                && destination.outbound == old(destination.outbound) + data
      ensures conn != null ==> Extends(if old(conn) != null then old(log) else [], log)
      ensures var c := old(Chosen(conn, dialled));
              ready && !old(closed) && query.eventId != "" && c != null && TakesWhole(old(destination.writePlan))
              && PageAnswered(codec, bodies, Request(VERSION, id, READ_PAYLOAD, bodies.encodeQuery(query)), query,
                              old(c.inbound), old(c.readPlan), old(c.writePlan)) ==>
                r.Success? && conn == c
      ensures r.Failure? && r.failure.Rpc? ==>
                && conn != null && log != [] && destination.outbound == old(destination.outbound)
                && Asks(codec, log[|log| - 1], Request(VERSION, id, READ_PAYLOAD, bodies.encodeQuery(query)))
                && exists response :: ReplyFrame(codec, log[|log| - 1].down, response) && ValidResponse(response, id)
                     && response.status == "error" && response.error.value == r.failure.error
      ensures var c := old(Chosen(conn, dialled));
              ready && !old(closed) && query.eventId != "" && c != null
              && Answered(codec, Request(VERSION, id, READ_PAYLOAD, bodies.encodeQuery(query)), old(c.inbound), old(c.readPlan), old(c.writePlan))
              && codec.decodeResponse(Payload(old(c.inbound))).value.status == "error" ==>
                && r == Failure(Rpc(codec.decodeResponse(Payload(old(c.inbound))).value.error.value))
                && conn == c && destination.outbound == old(destination.outbound)
                && |log| == (if old(conn) != null then |old(log)| else 0) + 1
    {
      hide ClientLog, Faithful, PageReceived, ReplyFrame, Extends, Payload, Complete, Tail, Frame, Header, ParseHeader, TakesWhole, ValidResponse;
      data := [];
      if query.eventId == "" || !ready {
        NotExtended(if conn != null then log else []);
        return Failure(NotStarted), [];
      }
      var c := Connection(dialled);
      if c == null { return Failure(if closed then Closed else Transport), []; }
      ghost var base, sent, read := log, c.outbound, c.consumed;
      NotExtended(base);
      var q := Request(VERSION, id, READ_PAYLOAD, bodies.encodeQuery(query));
      var answer, envelope := RoundTrip(q);
      if answer == None { return Failure(Transport), []; }
      var response := answer.value;
      if response.status == "error" {
        PlainExchange(codec, base, sent, read, q, envelope, response);
        log := base + [Exchange(Frame(codec.encodeRequest(q)), Frame(envelope))];
        return Failure(Rpc(response.error.value)), [];
      }
      var metadata := bodies.metadata(response.body);
      if metadata == None || metadata.value.eventId != query.eventId || metadata.value.offset != query.offset
         || metadata.value.limit != query.limit || !ValidSha256(metadata.value.sha256) {
        Poison();
        return Failure(Invalid), [];
      }
      var expected := ClientExpected(metadata.value.totalSize, query.offset, query.limit);
      var failure, copied := ReadEvidence(expected, destination);
      if failure.Some? { return Failure(failure.value), []; }
      data := copied;
      PageExchange(codec, bodies, base, sent, read, q, query, envelope, response, metadata.value, expected, data);
      Reassociate(read, Frame(envelope), Header(expected) + data);
      log := base + [Exchange(Frame(codec.encodeRequest(q)), Frame(envelope) + (Header(expected) + data))];
      r := Success(metadata.value);
    }

    // The evidence behind a reply: a header with the expected length, and that many bytes.
    method ReadEvidence(expected: uint64, destination: Stream) returns (failure: Option<Failure>, ghost data: bytes)
      requires conn != null && destination != conn
      modifies this`conn, conn`inbound, conn`readPlan, conn`consumed, destination`outbound, destination`writePlan
      ensures conn == if failure.None? then old(conn) else null
      ensures failure.Some? ==> !failure.value.Rpc?
      ensures failure.None? ==>
                && |data| == expected as nat && conn.consumed == old(conn.consumed) + (Header(expected) + data)
                && destination.outbound == old(destination.outbound) + data
      ensures EvidenceLength(old(conn.inbound)).Some? && Declared(old(conn.inbound)) == expected as nat && expected <= MAX_INT64
              && Provides(old(conn.inbound), old(conn.readPlan), HEADER_LENGTH + expected as nat) && TakesWhole(old(destination.writePlan)) ==>
                failure.None?
    {
      hide Header, TakesWhole;
      var c := conn;
      ghost var read := c.consumed;
      var declared := ReadEvidenceHeader(c);
      if declared.Failed? || declared.value != expected {
        Poison();
        return Some(if declared.Failed? then Transport else Invalid), [];
      }
      if expected > MAX_INT64 {
        Poison();
        return Some(Invalid), [];
      }
      var complete, copied := CopyLimited(c, destination, expected as nat);
      if !complete {
        Poison();
        return Some(Transport), [];
      }
      Reassociate(read, Header(expected), copied);
      return None, copied;
    }

    // io.Copy from a reader limited to `length` bytes; complete when it copied them all without an error.
    method CopyLimited(source: Stream, destination: Stream, length: nat) returns (complete: bool, ghost data: bytes)
      requires source != destination
      modifies source`inbound, source`readPlan, source`consumed, destination`outbound, destination`writePlan
      ensures complete ==>
                && |data| == length && source.consumed == old(source.consumed) + data
                && destination.outbound == old(destination.outbound) + data
      ensures Provides(old(source.inbound), old(source.readPlan), length) && TakesWhole(old(destination.writePlan)) ==> complete
    {
      data := [];
      var buffer, written := new byte[COPY_BUFFER], 0;
      while written < length
        invariant 0 <= written == |data| <= length
        invariant source.consumed == old(source.consumed) + data
        invariant destination.outbound == old(destination.outbound) + data
        invariant Provides(old(source.inbound), old(source.readPlan), length) && TakesWhole(old(destination.writePlan)) ==>
                    Provides(source.inbound, source.readPlan, length - written) && TakesWhole(destination.writePlan)
        decreases length - written, |source.readPlan|
      {
        var n, err := source.Read(buffer, Min(buffer.Length, length - written));
        if n > 0 {
          var chunk := buffer[..n];
          var count, failure := destination.Write(chunk);
          if count < 0 || count > n || failure.Some? || count != n { return false, []; }
          assert chunk[..count] == chunk;
          data, written := data + chunk, written + n;
        }
        if err.Some? && (written < length || err != Some(Eof)) { return false, []; }
      }
      complete := true;
    }
  }

  // ---------- lemmas ----------

  // At most one exchange more.
  ghost predicate Extends(before: seq<Exchange>, after: seq<Exchange>) {
    after == before || (after != [] && after[..|after| - 1] == before)
  }

  lemma NotExtended(log: seq<Exchange>)
    ensures Extends(log, log)
  {
  }

  lemma Extended(log: seq<Exchange>, e: Exchange)
    ensures Extends(log, log + [e])
  {
    assert (log + [e])[..|log|] == log;
  }

  lemma LogExtended(c: Codec, log: seq<Exchange>, sent: bytes, read: bytes, e: Exchange)
    requires ClientLog(c, log, sent, read) && ClientExchange(c, e) && !Misaligning(c, e.up)
    ensures ClientLog(c, log + [e], sent + e.up, read + e.down)
    ensures Extends(log, log + [e])
  {
    LogSnoc(log, e);
    Extended(log, e);
    hide ClientExchange, Misaligning, Up, Down;
  }

  // A request other than a capture is one frame, with nothing behind it.
  lemma RequestUnit(c: Codec, q: Request)
    requires Faithful(c) && q.operation != CAPTURE && |c.encodeRequest(q)| <= MAX_CONTROL_FRAME
    ensures var up := Frame(c.encodeRequest(q));
            IsRequest(c, up) && !Misaligning(c, up) && ReadsPayload(c, up) == (q.operation == READ_PAYLOAD)
  {
    FrameAlone(c.encodeRequest(q));
  }

  lemma PlainExchange(c: Codec, log: seq<Exchange>, sent: bytes, read: bytes, q: Request, envelope: bytes, r: Response)
    requires ClientLog(c, log, sent, read) && Faithful(c) && q.operation != CAPTURE
    requires |c.encodeRequest(q)| <= MAX_CONTROL_FRAME && |envelope| <= MAX_CONTROL_FRAME
    requires c.decodeResponse(envelope) == Some(r) && (q.operation == READ_PAYLOAD ==> r.status != "ok")
    ensures var e := Exchange(Frame(c.encodeRequest(q)), Frame(envelope));
            && ClientLog(c, log + [e], sent + e.up, read + e.down) && Extends(log, log + [e])
            && ReplyFrame(c, e.down, r)
  {
    RequestUnit(c, q);
    FrameAlone(envelope);
    hide ClientLog, Faithful, Frame;
    LogExtended(c, log, sent, read, Exchange(Frame(c.encodeRequest(q)), Frame(envelope)));
  }

  lemma PageExchange(c: Codec, b: Bodies, log: seq<Exchange>, sent: bytes, read: bytes, q: Request, query: PayloadQuery,
                     envelope: bytes, r: Response, m: PayloadMetadata, length: uint64, data: bytes)
    requires ClientLog(c, log, sent, read) && Faithful(c) && q.operation == READ_PAYLOAD
    requires |c.encodeRequest(q)| <= MAX_CONTROL_FRAME && |envelope| <= MAX_CONTROL_FRAME
    requires c.decodeResponse(envelope) == Some(r) && r.status == "ok" && b.metadata(r.body) == Some(m)
    requires m.eventId == query.eventId && m.offset == query.offset && m.limit == query.limit
    requires length == ClientExpected(m.totalSize, query.offset, query.limit) && |data| == length as nat
    ensures var e := Exchange(Frame(c.encodeRequest(q)), Frame(envelope) + (Header(length) + data));
            && ClientLog(c, log + [e], sent + e.up, read + e.down) && Extends(log, log + [e])
            && PageReceived(c, b, query, e.down, m, data)
  {
    RequestUnit(c, q);
    FrameWithEvidence(envelope, length, data);
    hide ClientLog, Faithful, Frame, Header;
    var e := Exchange(Frame(c.encodeRequest(q)), Frame(envelope) + (Header(length) + data));
    LogExtended(c, log, sent, read, e);
    assert ReplyParts(e.down, envelope, length, data);
  }
}
