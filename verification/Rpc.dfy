/** Requests and replies as units of the two byte streams of a connection, and why two ends that
    both keep the connection are always in step. */
module Rpc {
  import opened Bytes
  import opened Framing

  datatype Request = Request(version: int, id: string, operation: string, body: bytes)
  datatype ResponseError = ResponseError(code: string, message: string)
  datatype Response = Response(version: int, id: string, status: string, body: bytes, error: Option<ResponseError>)

  datatype PayloadQuery = PayloadQuery(eventId: string, offset: uint64, limit: uint64)
  datatype PayloadMetadata = PayloadMetadata(eventId: string, totalSize: uint64, sha256: string, offset: uint64, limit: uint64)

  // JSON, left abstract.
  datatype Codec = Codec(
    encodeRequest: Request -> bytes, decodeRequest: bytes -> Option<Request>,
    encodeResponse: Response -> bytes, decodeResponse: bytes -> Option<Response>)

  // Decoding gives back what was encoded.
  ghost predicate Faithful(c: Codec) {
    && (forall q :: c.decodeRequest(c.encodeRequest(q)) == Some(q))
    && (forall r :: c.decodeResponse(c.encodeResponse(r)) == Some(r))
  }

  const VERSION := 1
  const CAPTURE := "capture.append"
  const READ_PAYLOAD := "event.read_payload"

  // ---------- units ----------

  // The length of the evidence (header and bytes) at the front of w, if it is all there.
  function EvidenceLength(w: bytes): Option<nat> {
    if |w| >= HEADER_LENGTH && HEADER_LENGTH + Declared(w) <= |w| then Some(HEADER_LENGTH + Declared(w)) else None
  }

  // The length of the frame at the front of w, with evidence behind it or without.
  function UnitLength(w: bytes, evidence: bool): Option<nat> {
    if !Complete(w) then None
    else if !evidence then Some(HEADER_LENGTH + Declared(w))
    else match EvidenceLength(Tail(w))
      case None => None
      case Some(n) => Some(HEADER_LENGTH + Declared(w) + n)
  }

  // Units delimit themselves: what follows one does not change its length.
  lemma UnitLengthStable(w: bytes, evidence: bool, more: bytes)
    ensures UnitLength(w, evidence).Some? ==> UnitLength(w + more, evidence) == UnitLength(w, evidence)
  {
    MoreBehind(w, more);
    if Complete(w) {
      assert Declared(w + more) == Declared(w) by {
        assert (w + more)[..HEADER_LENGTH] == w[..HEADER_LENGTH];
      }
      var tail := Tail(w);
      if |tail| >= HEADER_LENGTH {
        assert (tail + more)[..HEADER_LENGTH] == tail[..HEADER_LENGTH];
      }
    }
  }

  // A client sends evidence behind a capture request and behind nothing else.
  predicate SendsEvidence(c: Codec, w: bytes)
    requires Complete(w)
  {
    match c.decodeRequest(Payload(w))
    case None => false
    case Some(q) => q.operation == CAPTURE
  }

  // The daemon reads evidence behind a capture request only after checking version and request ID.
  predicate TakesEvidence(c: Codec, w: bytes)
    requires Complete(w)
  {
    match c.decodeRequest(Payload(w))
    case None => false
    case Some(q) => q.operation == CAPTURE && q.version == VERSION && q.id != ""
  }

  predicate ReadsPayload(c: Codec, w: bytes)
    requires Complete(w)
  {
    match c.decodeRequest(Payload(w))
    case None => false
    case Some(q) => q.operation == READ_PAYLOAD
  }

  // Evidence follows the reply to a payload read exactly when it reports success.
  predicate ReplyHasEvidence(c: Codec, reading: bool, w: bytes)
    requires Complete(w)
  {
    reading && match c.decodeResponse(Payload(w))
               case None => false
               case Some(r) => r.status == "ok"
  }

  // One whole request as sent.
  predicate IsRequest(c: Codec, u: bytes) {
    Complete(u) && UnitLength(u, SendsEvidence(c, u)) == Some(|u|)
  }

  // One whole request as consumed by a daemon that keeps the connection.
  predicate IsHandled(c: Codec, u: bytes) {
    Complete(u) && UnitLength(u, TakesEvidence(c, u)) == Some(|u|)
  }

  // One whole reply.
  predicate IsReply(c: Codec, reading: bool, u: bytes) {
    Complete(u) && UnitLength(u, ReplyHasEvidence(c, reading, u)) == Some(|u|)
  }

  // ---------- conversations ----------

  // One operation for which an end kept the connection: the bytes up and the bytes down.
  datatype Exchange = Exchange(up: bytes, down: bytes)

  function Up(log: seq<Exchange>): bytes {
    if log == [] then [] else log[0].up + Up(log[1..])
  }

  function Down(log: seq<Exchange>): bytes {
    if log == [] then [] else log[0].down + Down(log[1..])
  }

  lemma {:induction false} LogSnoc(log: seq<Exchange>, e: Exchange)
    ensures Up(log + [e]) == Up(log) + e.up && Down(log + [e]) == Down(log) + e.down
  {
    if log == [] {
      assert [e][1..] == [];
    } else {
      var tail := log[1..];
      assert (log + [e])[1..] == tail + [e];
      LogSnoc(tail, e);
      assert log[0].up + (Up(tail) + e.up) == (log[0].up + Up(tail)) + e.up;
      assert log[0].down + (Down(tail) + e.down) == (log[0].down + Down(tail)) + e.down;
    }
  }

  ghost predicate ClientExchange(c: Codec, e: Exchange) {
    IsRequest(c, e.up) && IsReply(c, ReadsPayload(c, e.up), e.down)
  }

  ghost predicate ServerExchange(c: Codec, e: Exchange) {
    IsHandled(c, e.up) && IsReply(c, ReadsPayload(c, e.up), e.down)
  }

  // The client sent, and read, exactly its exchanges, none of them misaligning.
  ghost predicate ClientLog(c: Codec, log: seq<Exchange>, sent: bytes, read: bytes) {
    && (forall i :: 0 <= i < |log| ==> ClientExchange(c, log[i]) && !Misaligning(c, log[i].up))
    && sent == Up(log) && read == Down(log)
  }

  // The daemon read, and sent, exactly its exchanges.
  ghost predicate ServerLog(c: Codec, log: seq<Exchange>, read: bytes, sent: bytes) {
    && (forall i :: 0 <= i < |log| ==> ServerExchange(c, log[i]))
    && read == Up(log) && sent == Down(log)
  }

  // A capture the daemon refuses before it looks for evidence; the connection stays open.
  predicate Misaligning(c: Codec, u: bytes)
    requires Complete(u)
  {
    SendsEvidence(c, u) && !TakesEvidence(c, u)
  }

  lemma Cancel(a: bytes, x: bytes, b: bytes, y: bytes, n: nat)
    requires a + x <= b + y && n == |a| == |b|
    ensures a == b && x <= y
  {
    assert (a + x)[..n] == a && (b + y)[..n] == b;
    assert x == (a + x)[n..] && y == (b + y)[n..];
  }

  // Units of equal kind at the front of comparable streams are equal.
  lemma SameUnit(u: bytes, x: bytes, v: bytes, y: bytes, evidence: bool)
    requires u + x <= v + y
    requires UnitLength(u, evidence) == Some(|u|) && UnitLength(v, evidence) == Some(|v|)
    ensures u == v && x <= y
  {
    UnitLengthStable(u, evidence, x);
    UnitLengthStable(v, evidence, y);
    var more := (v + y)[|u + x|..];
    assert (u + x) + more == v + y;
    UnitLengthStable(u + x, evidence, more);
    Cancel(u, x, v, y, |u|);
  }

  // The frames at the front of comparable streams are equal, so both ends read the same request or reply.
  lemma SameFrame(u: bytes, x: bytes, v: bytes, y: bytes)
    requires u + x <= v + y && Complete(u) && Complete(v)
    ensures Payload(u) == Payload(v)
  {
    MoreBehind(u, x);
    MoreBehind(v, y);
    var more := (v + y)[|u + x|..];
    assert (u + x) + more == v + y;
    MoreBehind(u + x, more);
  }

  lemma SameRequest(c: Codec, u: bytes, x: bytes, v: bytes, y: bytes)
    requires u + x <= v + y && IsHandled(c, u) && IsRequest(c, v) && !Misaligning(c, v)
    ensures u == v && x <= y
  {
    SameFrame(u, x, v, y);
    SameUnit(u, x, v, y, SendsEvidence(c, v));
  }

  lemma SameReply(c: Codec, reading: bool, u: bytes, x: bytes, v: bytes, y: bytes)
    requires u + x <= v + y && IsReply(c, reading, u) && IsReply(c, reading, v)
    ensures u == v && x <= y
  {
    SameFrame(u, x, v, y);
    SameUnit(u, x, v, y, ReplyHasEvidence(c, reading, v));
  }

  lemma UnitsNotEmpty(c: Codec, reading: bool, u: bytes)
    ensures IsRequest(c, u) || IsHandled(c, u) || IsReply(c, reading, u) ==> |u| >= HEADER_LENGTH
  {
  }

  // Main result on sessions: at any moment when the client is between operations and the daemon is
  // about to read its next request, both having kept the connection, they have had the very same
  // exchanges. So nothing is unread in either direction, and the next frame parsed is the next one
  // sent. What the daemon has read and what the client has read are prefixes of what the other sent,
  // and that is all that is assumed of the transport and of the interleaving.
  lemma Aligned(c: Codec, client: seq<Exchange>, server: seq<Exchange>,
                clientSent: bytes, clientRead: bytes, serverSent: bytes, serverRead: bytes)
    requires ClientLog(c, client, clientSent, clientRead) && ServerLog(c, server, serverRead, serverSent)
    requires serverRead <= clientSent && clientRead <= serverSent
    ensures client == server && serverRead == clientSent && clientRead == serverSent
  {
    SameExchanges(c, client, server);
  }

  lemma {:induction false} SameExchanges(c: Codec, client: seq<Exchange>, server: seq<Exchange>)
    requires forall i :: 0 <= i < |client| ==> ClientExchange(c, client[i]) && !Misaligning(c, client[i].up)
    requires forall i :: 0 <= i < |server| ==> ServerExchange(c, server[i])
    requires Up(server) <= Up(client) && Down(client) <= Down(server)
    ensures client == server
    decreases |client|
  {
    if client != [] { UnitsNotEmpty(c, ReadsPayload(c, client[0].up), client[0].down); }
    if server != [] { UnitsNotEmpty(c, false, server[0].up); }
    if client != [] && server != [] {
      var a, b := client[0], server[0];
      SameRequest(c, b.up, Up(server[1..]), a.up, Up(client[1..]));
      SameReply(c, ReadsPayload(c, a.up), a.down, Down(client[1..]), b.down, Down(server[1..]));
      SameExchanges(c, client[1..], server[1..]);
      assert client == [a] + client[1..] && server == [b] + server[1..];
    }
  }

  // The condition in Aligned is exact: a daemon that keeps the connection consumes a whole request if and
  // only if the request is not misaligning; for a misaligning one it leaves the evidence unread.
  lemma ConsumesWholeIff(c: Codec, u: bytes, consumed: bytes)
    requires IsRequest(c, u) && IsHandled(c, consumed) && consumed <= u
    ensures consumed == u <==> !Misaligning(c, u)
    ensures Misaligning(c, u) ==> |u| >= |consumed| + HEADER_LENGTH
  {
    assert consumed + [] == consumed && u + [] == u;
    SameFrame(consumed, [], u, []);
    MoreBehind(consumed, u[|consumed|..]);
    assert consumed + u[|consumed|..] == u;
    if !Misaligning(c, u) {
      SameUnit(consumed, [], u, [], SendsEvidence(c, u));
    }
  }

  // ---------- building units ----------

  lemma FrameUnit(payload: bytes, more: bytes)
    requires |payload| <= MAX_CONTROL_FRAME
    ensures var u := Frame(payload) + more;
            Complete(u) && Payload(u) == payload && Tail(u) == more
            && HEADER_LENGTH + Declared(u) == |Frame(payload)|
  {
    var u, header := Frame(payload) + more, Header(|payload| as uint64);
    HeaderBijective(|payload| as uint64, header);
    assert u[..HEADER_LENGTH] == header;
    assert u[HEADER_LENGTH..HEADER_LENGTH + |payload|] == payload && u[HEADER_LENGTH + |payload|..] == more;
  }

  lemma FrameAlone(payload: bytes)
    requires |payload| <= MAX_CONTROL_FRAME
    ensures var u := Frame(payload);
            Complete(u) && Payload(u) == payload && UnitLength(u, false) == Some(|u|)
  {
    FrameUnit(payload, []);
    assert Frame(payload) + [] == Frame(payload);
  }

  lemma FrameWithEvidence(payload: bytes, length: uint64, data: bytes)
    requires |payload| <= MAX_CONTROL_FRAME && |data| == length as nat
    ensures var u := Frame(payload) + (Header(length) + data);
            Complete(u) && Payload(u) == payload && UnitLength(u, true) == Some(|u|)
  {
    FrameUnit(payload, Header(length) + data);
    HeaderBijective(length, Header(length));
    assert (Header(length) + data)[..HEADER_LENGTH] == Header(length);
  }
}
