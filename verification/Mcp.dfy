/** The MCP server's payload tool (internal/mcp/server.go): a read through the client, and a check of what came back that
    repeats the page-length arithmetic. */
module Mcp {
  import opened Bytes
  import opened Streams
  import opened Tables
  import opened Framing
  import opened Rpc
  import opened Paging
  import Client

  // validPayloadResponse.
  predicate Accepts(m: PayloadMetadata, written: uint64, query: PayloadQuery, data: bytes) {
    if m.eventId != query.eventId || m.offset != query.offset || m.limit != query.limit || m.totalSize < query.offset
       || |m.sha256| != 64 || !HexDigits(m.sha256)
    then false
    else
      var rest := m.totalSize - query.offset;
      var expected := if rest > query.limit then query.limit else rest;
      written as nat == |data| && written == expected
  }

  // Of a page that the client accepted, for a limit of at least one, only an offset past the end is refused.
  lemma AcceptsIff(c: Codec, b: Client.Bodies, query: PayloadQuery, reply: bytes, m: PayloadMetadata, data: bytes)
    requires Client.PageReceived(c, b, query, reply, m, data) && ValidSha256(m.sha256) && query.limit >= 1
    ensures |data| < 0x1_0000_0000_0000_0000
    ensures Accepts(m, |data| as uint64, query, data) <==> query.offset <= m.totalSize
  {
    var envelope: bytes, r: Response :|
      && c.decodeResponse(envelope) == Some(r) && r.status == "ok" && b.metadata(r.body) == Some(m)
      && m.eventId == query.eventId && m.offset == query.offset && m.limit == query.limit
      && Client.ReplyParts(reply, envelope, ClientExpected(m.totalSize, query.offset, query.limit), data);
    assert |data| == ClientExpected(m.totalSize, query.offset, query.limit) as nat;
  }

  datatype Outcome = Returned(m: PayloadMetadata, data: bytes) | Refused(m: PayloadMetadata) | Failed(failure: Client.Failure)

  /** Reads one page into a buffer of its own. Of the reads that the client completes, it returns exactly those whose
      offset is not past the end. */
  method ReadPayload(client: Client.Client, query: PayloadQuery, id: string, ready: bool, dialled: Stream?) returns (r: Outcome)
    requires client.Valid() && Faithful(client.codec) && query.limit >= 1
    requires dialled != null ==> dialled.outbound == [] && dialled.consumed == []
    modifies client, client.conn, dialled
    ensures client.Valid()
    ensures r.Returned? ==>
              && client.conn != null && client.log != []
              && Client.PageReceived(client.codec, client.bodies, query, client.log[|client.log| - 1].down, r.m, r.data)
              && query.offset <= r.m.totalSize
    ensures r.Refused? ==> r.m.totalSize < query.offset
    ensures var c := old(Client.Chosen(client.conn, dialled));
            ready && !old(client.closed) && query.eventId != "" && c != null
            && Client.Answered(client.codec, Request(VERSION, id, READ_PAYLOAD, client.bodies.encodeQuery(query)),
                               old(c.inbound), old(c.readPlan), old(c.writePlan))
            && client.codec.decodeResponse(Payload(old(c.inbound))).value.status == "error" ==>
              r == Failed(Client.Rpc(client.codec.decodeResponse(Payload(old(c.inbound))).value.error.value))
    ensures var c := old(Client.Chosen(client.conn, dialled));
            ready && !old(client.closed) && query.eventId != "" && c != null
            && Client.PageAnswered(client.codec, client.bodies, Request(VERSION, id, READ_PAYLOAD, client.bodies.encodeQuery(query)), query,
                                   old(c.inbound), old(c.readPlan), old(c.writePlan)) ==>
              !r.Failed?
  {
    var buffer := new Stream([], [], []);
    var read, data := client.ReadPayload(query, id, ready, dialled, buffer);
    if read.Failure? { return Failed(read.failure); }
    assert buffer.outbound == data;
    AcceptsIff(client.codec, client.bodies, query, client.log[|client.log| - 1].down, read.value, data);
    r := if Accepts(read.value, |buffer.outbound| as uint64, query, buffer.outbound)
         then Returned(read.value, buffer.outbound) else Refused(read.value);
  }
}
