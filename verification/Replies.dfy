/** What the daemon replies: the right answer to each request from the tables it has, the bytes it is sent
    as, and what a whole reply tells whoever reads it. */
module Replies {
  import opened Bytes
  import opened Evidence
  import opened Tables
  import opened Storage
  import opened Framing
  import opened Rpc
  import Journal
  import Search
  import opened Paging

  datatype CaptureBody = CaptureBody(event: Event, payloadSize: uint64)

  datatype ReplyBody =
    | Health
    | Info
    | Captured(result: AppendResult)
    | EventInfo(id: string, metadata: Metadata)
    | PayloadInfo(page: PayloadMetadata)
    | Events(events: seq<Search.Reference>)

  // The JSON bodies inside envelopes, left abstract like the envelopes.
  datatype Bodies = Bodies(
    capture: bytes -> Option<CaptureBody>, eventId: bytes -> Option<string>,
    payload: bytes -> Option<PayloadQuery>, search: bytes -> Option<(string, int)>,
    encode: ReplyBody -> bytes)

  const MAX_SEARCH_QUERY := 4096
  const MAX_SEARCH_RESULTS := 100

  function OkResponse(b: Bodies, id: string, body: ReplyBody): Response { Response(VERSION, id, "ok", b.encode(body), None) }

  function ErrorResponse(id: string, code: string, message: string): Response {
    Response(VERSION, id, "error", [], Some(ResponseError(code, message)))
  }

  function StorageErrorResponse(id: string, error: StoreError): Response {
    match error
    case NotFound => ErrorResponse(id, "not_found", "event was not found")
    case Conflict => ErrorResponse(id, "conflict", "event conflicts with stored evidence")
    case _ => ErrorResponse(id, "internal", "internal server error")
  }

  function InvalidPayload(id: string): Response { ErrorResponse(id, "invalid_request", "payload request is invalid") }

  function InvalidCapture(id: string): Response { ErrorResponse(id, "invalid_request", "capture request is invalid") }

  function InvalidEvidence(id: string): Response { ErrorResponse(id, "invalid_request", "capture evidence is invalid") }

  function Internal(id: string): Response { StorageErrorResponse(id, Fault) }

  function UnsupportedProtocol(id: string): Response {
    ErrorResponse(id, "unsupported_protocol", "protocol version is not supported")
  }

  function InvalidRequest(id: string): Response { ErrorResponse(id, "invalid_request", "request is invalid") }

  // ---------- the bytes of a reply ----------

  // A reply that a frame can hold.
  ghost predicate Fits(c: Codec, r: Response) { |c.encodeResponse(r)| <= MAX_CONTROL_FRAME }

  // What is sent for a reply without evidence; nothing if no frame can hold it.
  ghost function FrameOf(c: Codec, r: Response): bytes { if Fits(c, r) then Frame(c.encodeResponse(r)) else [] }

  ghost predicate Framed(c: Codec, r: Response, reply: bytes) { Fits(c, r) && reply == FrameOf(c, r) }

  // The front of what was to be sent has gone out, perhaps all of it.
  ghost predicate Sending(before: bytes, after: bytes, whole: bytes) {
    exists k :: 0 <= k <= |whole| && after == before + whole[..k]
  }

  lemma SendingAll(before: bytes, after: bytes, whole: bytes)
    ensures Sending(before, before, whole) && Sending(before, before + whole, whole)
  {
    assert before == before + whole[..0] && before + whole == before + whole[..|whole|];
  }

  lemma SendingFront(before: bytes, after: bytes, whole: bytes)
    requires Sending(before, after, whole)
    ensures before <= after && after[|before|..] <= whole
  {
  }

  // ---------- the right reply ----------

  // The right reply to a question about an event. A storage failure has its own, and a store that works has none.
  ghost predicate MetadataAnswer(b: Bodies, db: Tables, quiet: bool, q: Request, r: Response) {
    match b.eventId(q.body)
    case None => r == ErrorResponse(q.id, "invalid_request", "event metadata request is invalid")
    case Some(id) =>
      if id == "" then r == ErrorResponse(q.id, "invalid_request", "event metadata request is invalid")
      else
        || (!quiet && r == StorageErrorResponse(q.id, Fault))
        || (if id in db.events
            then r == OkResponse(b, q.id, EventInfo(id, Metadata(db.events[id].actual, db.events[id].sha256)))
            else r == StorageErrorResponse(q.id, NotFound))
  }

  predicate ValidSearch(search: (string, int)) {
    search.0 != "" && |search.0| <= MAX_SEARCH_QUERY && 0 <= search.1 <= MAX_SEARCH_RESULTS
  }

  // The right reply to a search: what a scan of the chunks finds, cut to the limit.
  ghost predicate SearchAnswer(b: Bodies, db: Tables, quiet: bool, o: Oracle, q: Request, r: Response) {
    match b.search(q.body)
    case None => r == ErrorResponse(q.id, "invalid_request", "search request is invalid")
    case Some(search) =>
      if !ValidSearch(search) then r == ErrorResponse(q.id, "invalid_request", "search request is invalid")
      else
        || (!quiet && r == StorageErrorResponse(q.id, Fault))
        || (var limit := if search.1 == 0 then MAX_SEARCH_RESULTS else search.1;
            var found := Search.Cut(db, Search.ScannedKeys(db, search.0, o), limit);
            Search.RightMatches(db, found, search.0, limit, o) && r == OkResponse(b, q.id, Events(found)))
  }

  // The right reply to a request that is neither a capture nor a payload read.
  ghost predicate PlainAnswer(b: Bodies, db: Tables, quiet: bool, o: Oracle, q: Request, r: Response) {
    match q.operation
    case "system.hello" => r == OkResponse(b, q.id, Health)
    case "system.health" => r == OkResponse(b, q.id, Health)
    case "system.info" => r == OkResponse(b, q.id, Info)
    case "event.metadata" => MetadataAnswer(b, db, quiet, q, r)
    case "search.events" => SearchAnswer(b, db, quiet, o, q, r)
    case _ => r == ErrorResponse(q.id, "unsupported_operation", "operation is not supported")
  }

  // The event of a capture; its protocol version is the request's.
  function EventOf(q: Request, body: CaptureBody): Event { body.event.(protocolVersion := q.version) }

  // What a handler that keeps the connection has done to it: consumed the request's evidence, if the
  // daemon takes evidence behind this request, and sent one whole reply.
  ghost predicate Served(c: Codec, q: Request, evidence: bytes, reply: bytes) {
    && (if TakesCapture(q) then EvidenceLength(evidence) == Some(|evidence|) else evidence == [])
    && IsReply(c, q.operation == READ_PAYLOAD, reply)
  }

  // What an acknowledged capture means: the attempt is completed, its event's evidence has the declared
  // size and the hash of the bytes sent, and unless the event was already there it holds those bytes.
  ghost predicate Acknowledged(db: Tables, q: Request, body: CaptureBody, evidence: bytes, result: AppendResult, o: Oracle) {
    && EvidenceLength(evidence) == Some(|evidence|) && Declared(evidence) == body.payloadSize as nat
    && q.id in db.attempts
    && var a, data := db.attempts[q.id], evidence[HEADER_LENGTH..];
    && a.status == Completed && a.id == q.id && a.event == EventOf(q, body) && a.declared == body.payloadSize
    && Verified(db, a, o)
    && db.events[body.event.id].sha256 == o.sha256(data)
    && result == AppendResult(result.alreadyPresent, body.payloadSize, o.sha256(data))
    && (!result.alreadyPresent ==> Journal.HoldsPayload(db, a, data, o))
  }

  // What only a running daemon answers.
  predicate AsksForHealth(q: Request) {
    q.operation == "system.hello" || q.operation == "system.health" || q.operation == "system.info"
  }

  // The envelope before a page: what is stored of the event, and what was asked.
  function PageResponse(b: Bodies, id: string, row: EventRow, query: PayloadQuery): Response {
    OkResponse(b, id, PayloadInfo(PayloadMetadata(query.eventId, row.actual, row.sha256, query.offset, query.limit)))
  }

  // Metadata, and exactly the positions of the page.
  ghost predicate PageShape(c: Codec, b: Bodies, db: Tables, id: string, query: PayloadQuery, reply: bytes) {
    && query.eventId in db.events && query.eventId in db.chunks
    && var row, rows := db.events[query.eventId], db.chunks[query.eventId];
    var n := ClientExpected(row.actual, query.offset, query.limit);
    && Fits(c, PageResponse(b, id, row, query))
    && reply == Frame(c.encodeResponse(PageResponse(b, id, row, query)))
                + (Header(n) + Positional(rows, query.offset as nat, query.offset as nat + n as nat))
  }

  // The reply to a payload read: that, of chunks that are all there with their valid lengths.
  ghost predicate PageReply(c: Codec, b: Bodies, db: Tables, id: string, query: PayloadQuery, reply: bytes) {
    && PageShape(c, b, db, id, query, reply)
    && var row, rows := db.events[query.eventId], db.chunks[query.eventId];
    Readable(rows, row.actual as nat, query.offset as nat, query.limit as nat)
  }

  // The envelope of the right reply to a payload read.
  function PayloadResponse(b: Bodies, db: Tables, q: Request): Response {
    match b.payload(q.body)
    case None => InvalidPayload(q.id)
    case Some(query) =>
      if query.eventId == "" then InvalidPayload(q.id)
      else if query.eventId in db.events then PageResponse(b, q.id, db.events[query.eventId], query)
      else StorageErrorResponse(q.id, NotFound)
  }

  // The page asked for, if any, can be read.
  ghost predicate PageThere(b: Bodies, db: Tables, q: Request) {
    match b.payload(q.body)
    case None => true
    case Some(query) =>
      query.eventId in db.events && query.eventId in db.chunks ==>
        Readable(db.chunks[query.eventId], db.events[query.eventId].actual as nat, query.offset as nat, query.limit as nat)
  }

  // The right reply to a payload read: the page, or the error that says why there is none.
  ghost predicate PayloadAnswer(c: Codec, b: Bodies, db: Tables, quiet: bool, q: Request, reply: bytes) {
    match b.payload(q.body)
    case None => Framed(c, InvalidPayload(q.id), reply)
    case Some(query) =>
      if query.eventId == "" then Framed(c, InvalidPayload(q.id), reply)
      else
        || (!quiet && Framed(c, StorageErrorResponse(q.id, Fault), reply))
        || (if query.eventId in db.events then PageReply(c, b, db, q.id, query, reply)
            else Framed(c, StorageErrorResponse(q.id, NotFound), reply))
  }

  // A capture that the daemon looks at, evidence and all.
  predicate TakesCapture(q: Request) { q.operation == CAPTURE && q.version == VERSION && q.id != "" }

  ghost predicate CaptureAnswer(b: Bodies, db: Tables, o: Oracle, q: Request, evidence: bytes, r: Response) {
    exists result ::
      && b.capture(q.body).Some? && Acknowledged(db, q, b.capture(q.body).value, evidence, result, o)
      && r == OkResponse(b, q.id, Captured(result))
  }

  // ---------- a right reply is one whole reply ----------

  lemma PageServed(c: Codec, b: Bodies, db: Tables, id: string, query: PayloadQuery, reply: bytes)
    requires Faithful(c) && PageShape(c, b, db, id, query, reply)
    ensures IsReply(c, true, reply)
  {
    hide Header, Frame, UnitLength, Complete, Payload, Readable, ByteAt;
    var row, rows := db.events[query.eventId], db.chunks[query.eventId];
    var n := ClientExpected(row.actual, query.offset, query.limit);
    FrameWithEvidence(c.encodeResponse(PageResponse(b, id, row, query)), n,
                      Positional(rows, query.offset as nat, query.offset as nat + n as nat));
    assert ReplyHasEvidence(c, true, reply);
  }

  // A frame alone is a whole reply: an error to anything, or any response to what asks for no payload.
  lemma FrameServed(c: Codec, r: Response, reading: bool, reply: bytes)
    requires Faithful(c) && Framed(c, r, reply) && (r.status == "error" || !reading)
    ensures IsReply(c, reading, reply)
  {
    FrameAlone(c.encodeResponse(r));
    hide Frame, UnitLength, Complete, Payload;
    assert !ReplyHasEvidence(c, reading, reply);
  }

  lemma PayloadServed(c: Codec, b: Bodies, db: Tables, quiet: bool, q: Request, reply: bytes)
    requires Faithful(c) && PayloadAnswer(c, b, db, quiet, q, reply)
    ensures IsReply(c, true, reply)
  {
    hide Faithful, IsReply, Framed, PageShape;
    if r :| r in {InvalidPayload(q.id), StorageErrorResponse(q.id, Fault), StorageErrorResponse(q.id, NotFound)} && Framed(c, r, reply) {
      FrameServed(c, r, true, reply);
    } else {
      PageServed(c, b, db, q.id, b.payload(q.body).value, reply);
    }
  }

  lemma CaptureAnswerTakes(b: Bodies, db: Tables, o: Oracle, q: Request, evidence: bytes, r: Response)
    requires CaptureAnswer(b, db, o, q, evidence, r)
    ensures EvidenceLength(evidence) == Some(|evidence|) && r.status == "ok"
  {
    hide Verified, Journal.HoldsPayload;
  }

  // A request read and served is one exchange.
  lemma ExchangeServed(c: Codec, payload: bytes, q: Request, evidence: bytes, reply: bytes)
    requires |payload| <= MAX_CONTROL_FRAME
    requires c.decodeRequest(payload) == Some(q) && Served(c, q, evidence, reply)
    ensures ServerExchange(c, Exchange(Frame(payload) + evidence, reply))
    ensures |Frame(payload) + evidence| > 0
  {
    HandledUnit(c, payload, q, evidence);
  }

  lemma HandledUnit(c: Codec, payload: bytes, q: Request, evidence: bytes)
    requires |payload| <= MAX_CONTROL_FRAME && c.decodeRequest(payload) == Some(q)
    requires if TakesCapture(q) then EvidenceLength(evidence) == Some(|evidence|) else evidence == []
    ensures IsHandled(c, Frame(payload) + evidence)
    ensures ReadsPayload(c, Frame(payload) + evidence) == (q.operation == READ_PAYLOAD)
  {
    FrameUnit(payload, evidence);
  }
}
