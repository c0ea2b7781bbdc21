/** End to end: what the two ends of a connection have of each other, and that what one client captured is
    what any client reads, however long after. */
module Session {
  import opened Bytes
  import opened Evidence
  import opened Streams
  import opened Tables
  import opened Storage
  import opened Framing
  import opened Wire
  import opened Rpc
  import opened Paging
  import opened Replies
  import opened Answers
  import Daemon
  import Client
  import Journal
  import Fidelity
  import Capture

  // ---------- a client and a daemon on one connection ----------

  // A daemon's turn is the other end of a client's exchange: it read the same request, and its reply, which the
  // client has read, tells the truth about the tables of the turn.
  ghost predicate AnsweredBy(c: Codec, d: Bodies, o: Oracle, e: Exchange, t: Daemon.Turn) {
    && Complete(e.up) && Payload(e.up) == t.payload && t.asked.Some? && c.decodeRequest(t.payload) == t.asked
    && e.down == t.reply && Told(c, d, t.scene, t.db, o, t.asked.value, t.evidence, t.reply)
  }

  // While both keep the connection: between two of the client's operations and at the head of a daemon's turn, they
  // have had the very same exchanges, and nothing is unread either way. All that is assumed of the transport is that
  // each has read a front part of what the other sent.
  lemma ClientMeetsDaemon(client: Client.Client, d: Bodies, o: Oracle, alone: bool, inbound: bytes, turns: seq<Daemon.Turn>,
                          heads: seq<Daemon.Head>, i: nat)
    requires client.Valid() && client.conn != null
    requires Daemon.Conversation(client.codec, d, o, alone, inbound, turns, heads) && i <= |turns|
    requires heads[i].read <= client.conn.outbound && client.conn.consumed <= heads[i].sent
    ensures heads[i].read == client.conn.outbound && client.conn.consumed == heads[i].sent
    ensures client.log == Daemon.Exchanges(turns[..i]) && |client.log| == i
    ensures forall k :: 0 <= k < i ==> AnsweredBy(client.codec, d, o, client.log[k], turns[k])
  {
    Aligned(client.codec, client.log, Daemon.Exchanges(turns[..i]),
            client.conn.outbound, client.conn.consumed, heads[i].sent, heads[i].read);
    forall k | 0 <= k < i ensures AnsweredBy(client.codec, d, o, client.log[k], turns[k]) {
      assert client.log[k] == Daemon.ExchangeOf(turns[k]);
      TurnAnswers(client.codec, d, o, turns[k]);
    }
  }

  lemma TurnAnswers(c: Codec, d: Bodies, o: Oracle, t: Daemon.Turn)
    requires Daemon.RightTurn(c, d, o, t)
    ensures AnsweredBy(c, d, o, Daemon.ExchangeOf(t), t) && ServerExchange(c, Daemon.ExchangeOf(t))
  {
    FrameUnit(t.payload, t.evidence);
    RightIsTold(c, d, t.scene, t.db, o, t.asked.value, t.evidence, t.reply);
    hide Told, RightReply;
  }

  // When the daemon has dropped the connection: the client has had the exchanges of the daemon's turns, and perhaps
  // one more, if the reply of the last turn went out whole although the daemon does not know.
  lemma ClientOutlivesDaemon(client: Client.Client, d: Bodies, o: Oracle, alone: bool, inbound: bytes, turns: seq<Daemon.Turn>,
                             heads: seq<Daemon.Head>, end: Daemon.Turn, part: bytes)
    requires client.Valid() && client.conn != null
    requires Daemon.Conversation(client.codec, d, o, alone, inbound, turns, heads) && Daemon.RightEnd(client.codec, d, o, end, part)
    requires var last := heads[|turns|];
             && last.read + Asked(end) <= client.conn.outbound && client.conn.consumed <= last.sent + part
    ensures |turns| <= |client.log| <= |turns| + 1
    ensures forall k :: 0 <= k < |client.log| ==>
              AnsweredBy(client.codec, d, o, client.log[k], if k < |turns| then turns[k] else end)
  {
    assert turns[..|turns|] == turns;
    SameUntilEnd(client.codec, d, o, client.log, turns, end, part);
  }

  // Both, of one daemon that serves a connection to its end and one state of the client at the other.
  method ServeClient(client: Client.Client, daemon: Daemon.Daemon, conn: Stream, clock: nat -> Instant)
    returns (ghost turns: seq<Daemon.Turn>, ghost heads: seq<Daemon.Head>, ghost end: Daemon.Turn)
    requires Journal.Inv(daemon.store.db, daemon.store.oracle) && Faithful(daemon.codec)
    requires conn.consumed == [] && conn.outbound == []
    requires client.Valid() && client.conn != null && client.conn != conn && client.codec == daemon.codec
    modifies daemon`running, daemon.store, conn
    ensures Daemon.ServedToEnd(daemon.codec, daemon.bodies, daemon.store.oracle, daemon.alone, old(daemon.HeadOf(conn)), conn.outbound, turns, heads, end)
    ensures |heads| == |turns| + 1
    ensures forall i :: 0 <= i <= |turns| && heads[i].read <= client.conn.outbound && client.conn.consumed <= heads[i].sent ==>
              && heads[i].read == client.conn.outbound && client.conn.consumed == heads[i].sent
              && i == |client.log| && forall k :: 0 <= k < i ==> AnsweredBy(client.codec, daemon.bodies, daemon.store.oracle, client.log[k], turns[k])
    ensures heads[|turns|].read + Asked(end) <= client.conn.outbound && client.conn.consumed <= conn.outbound ==>
              && |turns| <= |client.log| <= |turns| + 1
              && forall k :: 0 <= k < |client.log| ==>
                   AnsweredBy(client.codec, daemon.bodies, daemon.store.oracle, client.log[k], if k < |turns| then turns[k] else end)
  {
    hide *;
    ghost var c, d, o, start := daemon.codec, daemon.bodies, daemon.store.oracle, daemon.HeadOf(conn);
    turns, heads, end := daemon.ServeConnection(conn, clock);
    ServedParts(c, d, o, daemon.alone, start, conn.outbound, turns, heads, end);
    forall i | 0 <= i <= |turns| && heads[i].read <= client.conn.outbound && client.conn.consumed <= heads[i].sent
      ensures heads[i].read == client.conn.outbound && client.conn.consumed == heads[i].sent && i == |client.log|
      ensures forall k :: 0 <= k < i ==> AnsweredBy(c, d, o, client.log[k], turns[k])
    {
      ClientMeetsDaemon(client, d, o, daemon.alone, start.inbound, turns, heads, i);
    }
    ghost var last := heads[|turns|];
    assert last.sent + conn.outbound[|last.sent|..] == conn.outbound;
    if last.read + Asked(end) <= client.conn.outbound && client.conn.consumed <= conn.outbound {
      ClientOutlivesDaemon(client, d, o, daemon.alone, start.inbound, turns, heads, end, conn.outbound[|last.sent|..]);
    }
  }

  lemma ServedParts(c: Codec, d: Bodies, o: Oracle, alone: bool, start: Daemon.Head, outbound: bytes, turns: seq<Daemon.Turn>,
                    heads: seq<Daemon.Head>, end: Daemon.Turn)
    requires Daemon.ServedToEnd(c, d, o, alone, start, outbound, turns, heads, end)
    ensures |heads| == |turns| + 1 && Daemon.Conversation(c, d, o, alone, start.inbound, turns, heads)
    ensures var last := heads[|turns|]; last.sent <= outbound && Daemon.RightEnd(c, d, o, end, outbound[|last.sent|..])
    ensures Asked(end) <= heads[|turns|].inbound
  {
  }

  // What the daemon read in its last turn.
  function Asked(t: Daemon.Turn): bytes {
    if t.asked.Some? && |t.payload| <= MAX_CONTROL_FRAME then Frame(t.payload) + t.evidence else []
  }

  lemma {:induction false} SameUntilEnd(c: Codec, d: Bodies, o: Oracle, log: seq<Exchange>, turns: seq<Daemon.Turn>,
                                        end: Daemon.Turn, part: bytes)
    requires forall i :: 0 <= i < |log| ==> ClientExchange(c, log[i]) && !Misaligning(c, log[i].up)
    requires forall i :: 0 <= i < |turns| ==> |turns[i].payload| <= MAX_CONTROL_FRAME
    requires (forall i :: 0 <= i < |turns| ==> Daemon.RightTurn(c, d, o, turns[i])) && Daemon.RightEnd(c, d, o, end, part)
    requires Up(Daemon.Exchanges(turns)) + Asked(end) <= Up(log) && Down(log) <= Down(Daemon.Exchanges(turns)) + part
    ensures |turns| <= |log| <= |turns| + 1
    ensures forall k :: 0 <= k < |log| ==> AnsweredBy(c, d, o, log[k], if k < |turns| then turns[k] else end)
    decreases |turns|
  {
    hide AnsweredBy, ClientExchange, Daemon.RightTurn, Daemon.RightEnd, Daemon.Exchanges, Daemon.ExchangeOf, Up, Down, Misaligning, Asked;
    if turns == [] {
      NoTurns(turns);
      if log != [] {
        LogSplit(log);
        EndAnswers(c, d, o, log[0], Up(log[1..]), Down(log[1..]), end, part);
        NothingMore(c, log[1..]);
      }
    } else {
      var b, more := Daemon.ExchangeOf(turns[0]), Daemon.Exchanges(turns[1..]);
      TurnsSplit(turns);
      TurnAnswers(c, d, o, turns[0]);
      Reassociate(b.up, Up(more), Asked(end));
      Reassociate(b.down, Down(more), part);
      SameFirst(c, log, b, Up(more) + Asked(end), Down(more) + part);
      SameUntilEnd(c, d, o, log[1..], turns[1..], end, part);
      forall k | 0 <= k < |log| ensures AnsweredBy(c, d, o, log[k], if k < |turns| then turns[k] else end) {
        if k > 0 {
          assert log[k] == log[1..][k - 1] && (k < |turns| ==> turns[k] == turns[1..][k - 1]);
        }
      }
    }
  }

  lemma NoTurns(turns: seq<Daemon.Turn>)
    requires turns == []
    ensures Up(Daemon.Exchanges(turns)) == [] && Down(Daemon.Exchanges(turns)) == []
  {
  }

  lemma TurnsSplit(turns: seq<Daemon.Turn>)
    requires turns != [] && forall i :: 0 <= i < |turns| ==> |turns[i].payload| <= MAX_CONTROL_FRAME
    ensures var b, more := Daemon.ExchangeOf(turns[0]), Daemon.Exchanges(turns[1..]);
            && Up(Daemon.Exchanges(turns)) == b.up + Up(more) && Down(Daemon.Exchanges(turns)) == b.down + Down(more)
  {
    var server := Daemon.Exchanges(turns);
    assert server[0] == Daemon.ExchangeOf(turns[0]) && server[1..] == Daemon.Exchanges(turns[1..]);
  }

  lemma LogSplit(log: seq<Exchange>)
    requires log != []
    ensures Up(log) == log[0].up + Up(log[1..]) && Down(log) == log[0].down + Down(log[1..])
  {
  }

  lemma SameFirst(c: Codec, log: seq<Exchange>, b: Exchange, moreUp: bytes, moreDown: bytes)
    requires forall i :: 0 <= i < |log| ==> ClientExchange(c, log[i]) && !Misaligning(c, log[i].up)
    requires ServerExchange(c, b) && b.up + moreUp <= Up(log) && Down(log) <= b.down + moreDown
    ensures log != [] && log[0] == b && moreUp <= Up(log[1..]) && Down(log[1..]) <= moreDown
  {
    UnitsNotEmpty(c, false, b.up);
    var a := log[0];
    SameRequest(c, b.up, moreUp, a.up, Up(log[1..]));
    SameReply(c, ReadsPayload(c, a.up), a.down, Down(log[1..]), b.down, moreDown);
  }

  lemma NothingMore(c: Codec, log: seq<Exchange>)
    requires forall i :: 0 <= i < |log| ==> ClientExchange(c, log[i])
    ensures Down(log) == [] ==> log == []
  {
    if log != [] {
      UnitsNotEmpty(c, ReadsPayload(c, log[0].up), log[0].down);
    }
  }

  lemma EndAnswers(c: Codec, d: Bodies, o: Oracle, a: Exchange, moreUp: bytes, moreDown: bytes, end: Daemon.Turn, part: bytes)
    requires ClientExchange(c, a) && !Misaligning(c, a.up) && Daemon.RightEnd(c, d, o, end, part)
    requires Asked(end) <= a.up + moreUp && a.down + moreDown <= part
    ensures moreDown == [] && AnsweredBy(c, d, o, a, end)
  {
    UnitsNotEmpty(c, ReadsPayload(c, a.up), a.down);
    assert part != [] && end.asked.Some?;
    FrameUnit(end.payload, end.evidence);
    var up := Asked(end);
    assert up + [] == up && end.reply + [] == end.reply;
    SameFrame(up, [], a.up, moreUp);
    assert ReadsPayload(c, a.up) == (end.asked.value.operation == READ_PAYLOAD);
    SameReply(c, ReadsPayload(c, a.up), a.down, moreDown, end.reply, []);
    hide Told, IsReply, ClientExchange;
  }

  // ---------- what is read is what is stored ----------

  // The client's reading of a body undoes the daemon's writing of it, and the daemon's the client's.
  ghost predicate Understands(b: Client.Bodies, d: Bodies) {
    && (forall m :: b.metadata(d.encode(PayloadInfo(m))) == Some(m))
    && (forall query :: d.payload(b.encodeQuery(query)) == Some(query))
  }

  // A page a client has accepted: its exchange, and the daemon's turn at the other end.
  datatype PageRead = PageRead(query: PayloadQuery, id: string, e: Exchange, t: Daemon.Turn, m: PayloadMetadata, data: bytes)

  ghost predicate AcceptedPage(c: Codec, b: Client.Bodies, d: Bodies, o: Oracle, p: PageRead) {
    && p.query.eventId != "" && p.id != ""
    && Client.Asks(c, p.e, Request(VERSION, p.id, READ_PAYLOAD, b.encodeQuery(p.query)))
    && Client.PageReceived(c, b, p.query, p.e.down, p.m, p.data)
    && AnsweredBy(c, d, o, p.e, p.t)
  }

  // A reply seen from its two ends is one envelope and one stretch of data.
  lemma SameParts(reply: bytes, a: bytes, m: uint64, x: bytes, b: bytes, n: uint64, y: bytes)
    requires Client.ReplyParts(reply, a, m, x) && Client.ReplyParts(reply, b, n, y)
    ensures a == b && x == y
  {
    FrameUnit(a, Header(m) + x);
    FrameUnit(b, Header(n) + y);
    assert (Header(m) + x)[HEADER_LENGTH..] == x && (Header(n) + y)[HEADER_LENGTH..] == y;
  }

  // A frame alone is no page.
  lemma NotAPage(c: Codec, b: Client.Bodies, query: PayloadQuery, r: Response, reply: bytes, m: PayloadMetadata, data: bytes)
    requires Framed(c, r, reply)
    ensures !Client.PageReceived(c, b, query, reply, m, data)
  {
    if Client.PageReceived(c, b, query, reply, m, data) {
      var envelope: bytes, ok: Response :|
        && c.decodeResponse(envelope) == Some(ok) && ok.status == "ok" && b.metadata(ok.body) == Some(m)
        && m.eventId == query.eventId && m.offset == query.offset && m.limit == query.limit
        && Client.ReplyParts(reply, envelope, ClientExpected(m.totalSize, query.offset, query.limit), data);
      var length := ClientExpected(m.totalSize, query.offset, query.limit);
      FrameUnit(envelope, Header(length) + data);
      FrameAlone(c.encodeResponse(r));
    }
  }

  // A page that a client accepts is the page the daemon read from its tables in that turn.
  lemma AcceptedIsReply(c: Codec, b: Client.Bodies, d: Bodies, o: Oracle, p: PageRead)
    requires Faithful(c) && Understands(b, d) && AcceptedPage(c, b, d, o, p)
    ensures PageReply(c, d, p.t.db, p.id, p.query, p.e.down)
  {
    var q := Request(VERSION, p.id, READ_PAYLOAD, b.encodeQuery(p.query));
    FrameAlone(c.encodeRequest(q));
    assert p.t.asked == Some(q) && d.payload(q.body) == Some(p.query);
    assert PayloadAnswer(c, d, p.t.db, p.t.scene.quiet, q, p.e.down);
    hide Faithful, Understands, Framed, PageReply, Client.PageReceived, Told, PageShape;
    if r :| r in {StorageErrorResponse(q.id, Fault), StorageErrorResponse(q.id, NotFound)} && Framed(c, r, p.e.down) {
      NotAPage(c, b, p.query, r, p.e.down, p.m, p.data);
    }
  }

  // ... the very positions, and the stored size and hash.
  lemma ReceivedIsStored(c: Codec, b: Client.Bodies, d: Bodies, o: Oracle, p: PageRead)
    requires Faithful(c) && Understands(b, d) && AcceptedPage(c, b, d, o, p)
    ensures var db, id := p.t.db, p.query.eventId;
            && id in db.events && id in db.chunks
            && p.m.totalSize == db.events[id].actual && p.m.sha256 == db.events[id].sha256
    ensures var db, id, total := p.t.db, p.query.eventId, p.m.totalSize as nat;
            var n := PageLength(total, p.query.offset as nat, p.query.limit as nat);
            && Readable(db.chunks[id], total, p.query.offset as nat, p.query.limit as nat)
            && p.data == Positional(db.chunks[id], p.query.offset as nat, p.query.offset as nat + n)
  {
    AcceptedIsReply(c, b, d, o, p);
    ReplyIsStored(c, b, d, p.t.db, p.id, p.query, p.e.down, p.m, p.data);
    hide AcceptedPage, Faithful, Understands, PageReply, Readable, ByteAt;
  }

  lemma ReplyIsStored(c: Codec, b: Client.Bodies, d: Bodies, db: Tables, id: string, query: PayloadQuery, reply: bytes,
                      m: PayloadMetadata, data: bytes)
    requires Faithful(c) && Understands(b, d)
    requires PageReply(c, d, db, id, query, reply) && Client.PageReceived(c, b, query, reply, m, data)
    ensures query.eventId in db.events && query.eventId in db.chunks
    ensures m.totalSize == db.events[query.eventId].actual && m.sha256 == db.events[query.eventId].sha256
    ensures var total := db.events[query.eventId].actual as nat;
            var n := PageLength(total, query.offset as nat, query.limit as nat);
            && Readable(db.chunks[query.eventId], total, query.offset as nat, query.limit as nat)
            && data == Positional(db.chunks[query.eventId], query.offset as nat, query.offset as nat + n)
  {
    hide Header, Frame, Readable, ByteAt;
    var row := db.events[query.eventId];
    var n := ClientExpected(row.actual, query.offset, query.limit);
    LengthsAgree(row.actual, query.offset, query.limit);
    var slice := Positional(db.chunks[query.eventId], query.offset as nat, query.offset as nat + n as nat);
    var sent := c.encodeResponse(PageResponse(d, id, row, query));
    assert Client.ReplyParts(reply, sent, n, slice);
    var envelope: bytes, r: Response :|
      && c.decodeResponse(envelope) == Some(r) && r.status == "ok" && b.metadata(r.body) == Some(m)
      && m.eventId == query.eventId && m.offset == query.offset && m.limit == query.limit
      && Client.ReplyParts(reply, envelope, ClientExpected(m.totalSize, query.offset, query.limit), data);
    SameParts(reply, sent, n, slice, envelope, ClientExpected(m.totalSize, query.offset, query.limit), data);
  }

  // ---------- what the daemon sends, the client accepts ----------

  // Each of the daemon's responses is valid for its request, and for no other.
  lemma ResponsesAreValid(d: Bodies, id: string, body: ReplyBody, code: string, message: string, other: string)
    ensures Client.ValidResponse(OkResponse(d, id, body), other) <==> other == id
    ensures code != "" && message != "" ==> (Client.ValidResponse(ErrorResponse(id, code, message), other) <==> other == id)
  {
  }

  // A page reply at the front of what the client has to read, over a connection that works, is a page that its read
  // accepts.
  lemma PageIsAnswered(c: Codec, b: Client.Bodies, d: Bodies, db: Tables, id: string, query: PayloadQuery, reply: bytes, more: bytes,
                       readPlan: seq<ReadStep>, writePlan: seq<WriteStep>)
    requires Faithful(c) && Understands(b, d) && PageReply(c, d, db, id, query, reply)
    requires var row := db.events[query.eventId];
             ValidSha256(row.sha256) && ClientExpected(row.actual, query.offset, query.limit) <= MAX_INT64
    requires |c.encodeRequest(Request(VERSION, id, READ_PAYLOAD, b.encodeQuery(query)))| <= MAX_CONTROL_FRAME
    requires Reliable(writePlan) && Provides(reply + more, readPlan, |reply|)
    ensures Client.PageAnswered(c, b, Request(VERSION, id, READ_PAYLOAD, b.encodeQuery(query)), query, reply + more, readPlan, writePlan)
  {
    var row, rows := db.events[query.eventId], db.chunks[query.eventId];
    var n, ok := ClientExpected(row.actual, query.offset, query.limit), PageResponse(d, id, row, query);
    var slice := Positional(rows, query.offset as nat, query.offset as nat + n as nat);
    hide Readable, Positional, Header;
    var frame := Frame(c.encodeResponse(ok));
    Reassociate(frame, Header(n) + slice, more);
    Reassociate(Header(n), slice, more);
    FrameUnit(c.encodeResponse(ok), Header(n) + slice + more);
    HeaderFirst(n, slice + more);
    hide Frame, Header, Payload, Complete, Tail, Steady;
  }

  lemma HeaderFirst(n: uint64, rest: bytes)
    ensures |Header(n) + rest| == HEADER_LENGTH + |rest| && Declared(Header(n) + rest) == n as nat
    ensures n as nat <= |rest| ==> EvidenceLength(Header(n) + rest).Some?
  {
    HeaderBijective(n, Header(n));
    assert (Header(n) + rest)[..HEADER_LENGTH] == Header(n);
  }

  // ---------- what is captured is what is read ----------

  // The bytes the tables hold for an acknowledged capture do not share their hash with other bytes that it sent. Only a
  // capture of an event that was already there needs this.
  ghost predicate NoCollision(db: Tables, body: CaptureBody, evidence: bytes, result: AppendResult, o: Oracle)
    requires body.event.id in db.chunks && |evidence| >= HEADER_LENGTH
  {
    var stored, sent := Stored(db.chunks[body.event.id], body.payloadSize as nat), evidence[HEADER_LENGTH..];
    result.alreadyPresent && o.sha256(stored) == o.sha256(sent) ==> stored == sent
  }

  lemma AcknowledgedHolds(db: Tables, q: Request, body: CaptureBody, evidence: bytes, result: AppendResult, o: Oracle)
    requires Acknowledged(db, q, body, evidence, result, o)
    ensures |evidence| >= HEADER_LENGTH && body.event.id in db.chunks
    ensures NoCollision(db, body, evidence, result, o) ==> Journal.HoldsPayload(db, db.attempts[q.id], evidence[HEADER_LENGTH..], o)
  {
    var a := db.attempts[q.id];
    hide EvidenceLength, Declared, Journal.HoldsPayload;
    if result.alreadyPresent {
      var payload := Journal.VerifiedHolds(db, a, o);
      HeldIsStored(db, a, payload, o);
    }
  }

  lemma HeldIsStored(db: Tables, a: Attempt, payload: bytes, o: Oracle)
    requires Journal.HoldsPayload(db, a, payload, o)
    ensures Stored(db.chunks[a.event.id], a.declared as nat) == payload && db.events[a.event.id].sha256 == o.sha256(payload)
  {
    JoinSplit(payload);
    RowSeqOfRowsOf(Split(payload));
    hide Fidelity.ServesExactly;
  }

  // Main result: after a capture has been acknowledged, and any number of transactions by anyone since, whatever page
  // any client accepts of that event is that page of the bytes that were sent.
  lemma CapturedIsReadBack(c: Codec, b: Client.Bodies, d: Bodies, o: Oracle,
                           acknowledged: Tables, q: Request, body: CaptureBody, evidence: bytes, result: AppendResult, p: PageRead)
    requires Journal.Inv(acknowledged, o) && Acknowledged(acknowledged, q, body, evidence, result, o)
    requires body.event.id in acknowledged.chunks && |evidence| >= HEADER_LENGTH && NoCollision(acknowledged, body, evidence, result, o)
    requires Journal.Through(acknowledged, p.t.db, o) && p.query.eventId == body.event.id
    requires Faithful(c) && Understands(b, d) && AcceptedPage(c, b, d, o, p)
    ensures p.m.totalSize as nat == |evidence| - HEADER_LENGTH && p.m.sha256 == o.sha256(evidence[HEADER_LENGTH..])
    ensures p.data == Page(evidence[HEADER_LENGTH..], p.query.offset as nat, p.query.limit as nat)
  {
    hide AcceptedPage, Faithful, Understands, Journal.Inv, Journal.Through, Verified, Positional, NoCollision, EvidenceLength, Declared;
    var sent, later := evidence[HEADER_LENGTH..], p.t.db;
    var a := acknowledged.attempts[q.id];
    AcknowledgedHolds(acknowledged, q, body, evidence, result, o);
    Journal.ThroughKeeps(acknowledged, later, o);
    Capture.EvidenceKept(acknowledged, later, body.event.id);
    assert Journal.HoldsPayload(later, a, sent, o);
    ReceivedIsStored(c, b, d, o, p);
    assert Fidelity.ServesExactly(later.chunks[body.event.id], sent);
    assert Readable(later.chunks[body.event.id], |sent|, p.query.offset as nat, p.query.limit as nat);
  }

  // ---------- page by page ----------

  // Each page begins where the one before it ends, by the limits asked for.
  ghost predicate Consecutive(pages: seq<PageRead>, offset: nat) {
    && (forall i :: 0 <= i < |pages| ==> pages[i].query.limit > 0)
    && (pages != [] ==> pages[0].query.offset as nat == offset)
    && (forall i :: 0 <= i < |pages| - 1 ==>
          pages[i + 1].query.offset as nat == pages[i].query.offset as nat + pages[i].query.limit as nat)
  }

  function Limits(pages: seq<PageRead>): seq<nat> { seq(|pages|, i requires 0 <= i < |pages| => pages[i].query.limit as nat) }

  function Datas(pages: seq<PageRead>): seq<bytes> { seq(|pages|, i requires 0 <= i < |pages| => pages[i].data) }

  // The pages are those of the payload.
  ghost predicate ArePages(pages: seq<PageRead>, payload: bytes) {
    forall i :: 0 <= i < |pages| ==> pages[i].data == Page(payload, pages[i].query.offset as nat, pages[i].query.limit as nat)
  }

  lemma FirstPage(pages: seq<PageRead>, payload: bytes, offset: nat)
    requires Consecutive(pages, offset) && ArePages(pages, payload) && pages != []
    ensures Consecutive(pages[1..], offset + pages[0].query.limit as nat) && ArePages(pages[1..], payload)
    ensures pages[0].data == Page(payload, offset, pages[0].query.limit as nat)
    ensures Datas(pages) == [pages[0].data] + Datas(pages[1..]) && Limits(pages) == [pages[0].query.limit as nat] + Limits(pages[1..])
  {
    var rest := pages[1..];
    assert forall i :: 0 <= i < |rest| ==> rest[i] == pages[i + 1];
    hide Page;
  }

  lemma NoPages(pages: seq<PageRead>, payload: bytes, offset: nat)
    requires pages == []
    ensures Join(Datas(pages)) == Pages(payload, offset, Limits(pages))
  {
  }

  lemma {:induction false} DatasArePages(pages: seq<PageRead>, payload: bytes, offset: nat)
    requires Consecutive(pages, offset) && ArePages(pages, payload)
    ensures Join(Datas(pages)) == Pages(payload, offset, Limits(pages))
    decreases |pages|
  {
    hide *;
    if pages == [] {
      NoPages(pages, payload, offset);
    } else {
      var size, rest := pages[0].query.limit as nat, pages[1..];
      FirstPage(pages, payload, offset);
      DatasArePages(rest, payload, offset + size);
      JoinCons(pages[0].data, Datas(rest));
      PagesCons(payload, offset, size, Limits(rest));
    }
  }

  lemma PagesCons(payload: bytes, offset: nat, size: nat, sizes: seq<nat>)
    ensures Pages(payload, offset, [size] + sizes) == Page(payload, offset, size) + Pages(payload, offset + size, sizes)
  {
    assert ([size] + sizes)[1..] == sizes;
    hide Page;
  }

  // Reading a captured event from its start, page by page of any positive sizes and through whatever connections and
  // transactions, until the sizes cover it, gives back all that was sent.
  lemma PagesGiveBackAll(c: Codec, b: Client.Bodies, d: Bodies, o: Oracle,
                         acknowledged: Tables, q: Request, body: CaptureBody, evidence: bytes, result: AppendResult, pages: seq<PageRead>)
    requires Journal.Inv(acknowledged, o) && Acknowledged(acknowledged, q, body, evidence, result, o)
    requires body.event.id in acknowledged.chunks && |evidence| >= HEADER_LENGTH && NoCollision(acknowledged, body, evidence, result, o)
    requires Faithful(c) && Understands(b, d)
    requires forall i :: 0 <= i < |pages| ==>
               && AcceptedPage(c, b, d, o, pages[i]) && pages[i].query.eventId == body.event.id
               && Journal.Through(acknowledged, pages[i].t.db, o)
    requires Consecutive(pages, 0) && |evidence| - HEADER_LENGTH <= Sum(Limits(pages))
    ensures Join(Datas(pages)) == evidence[HEADER_LENGTH..]
  {
    hide Journal.Inv, Acknowledged, NoCollision, AcceptedPage, Faithful, Understands, Journal.Through, Page, Pages;
    var sent := evidence[HEADER_LENGTH..];
    forall i | 0 <= i < |pages|
      ensures pages[i].data == Page(sent, pages[i].query.offset as nat, pages[i].query.limit as nat)
    {
      CapturedIsReadBack(c, b, d, o, acknowledged, q, body, evidence, result, pages[i]);
    }
    assert ArePages(pages, sent);
    DatasArePages(pages, sent, 0);
    PagesReassemble(sent, 0, Limits(pages));
    assert sent[0..] == sent;
  }

  // ---------- a capture whose request resolves ----------

  // The request resolves when the first frame the decoder returns, of all that was received, is a fitting success.
  ghost predicate Resolves(c: Codec, q: Request, received: seq<bytes>) {
    && Feed([], received).frames != []
    && var r := c.decodeResponse(Feed([], received).frames[0]);
    r.Some? && r.value.version == VERSION && r.value.id == q.id && r.value.status == "ok"
  }

  lemma FirstFrame(chunks: seq<bytes>)
    requires Feed([], chunks).frames != []
    ensures Complete(Join(chunks)) && Feed([], chunks).frames[0] == Payload(Join(chunks))
  {
    AnyChunking([], chunks);
    assert [] + Join(chunks) == Join(chunks);
    assert Parse(Join(chunks)).frames[0] == Feed([], chunks).frames[0];
  }

  // An acknowledgement that arrives whole, in whatever pieces, resolves its request.
  lemma AcknowledgementResolves(c: Codec, d: Bodies, q: Request, result: AppendResult, received: seq<bytes>)
    requires Faithful(c) && Fits(c, OkResponse(d, q.id, Captured(result)))
    requires Join(received) == FrameOf(c, OkResponse(d, q.id, Captured(result)))
    ensures Resolves(c, q, received)
  {
    var envelope := c.encodeResponse(OkResponse(d, q.id, Captured(result)));
    assert Frames([envelope]) == Frame(envelope) + Frames([envelope][1..]) == Frame(envelope) + [] == Frame(envelope);
    EncodeDecode([envelope], received);
  }

  // The tables of a turn hold the acknowledged capture of this evidence.
  ghost predicate AcknowledgedIn(d: Bodies, o: Oracle, q: Request, evidence: bytes, t: Daemon.Turn) {
    exists result :: d.capture(q.body).Some? && Acknowledged(t.db, q, d.capture(q.body).value, evidence, result, o)
  }

  // What was sent: the request's frame, the header and the payload.
  function CaptureUnit(c: Codec, q: Request, size: uint64, data: bytes): bytes
    requires |c.encodeRequest(q)| <= MAX_CONTROL_FRAME
  {
    Frame(c.encodeRequest(q)) + (Header(size) + data)
  }

  // Main result on captures: on a connection of its own, of which the daemon has read a front part of what the
  // extension sent and the extension a front part of what the daemon sent, a capture that resolves is acknowledged in
  // the store, with exactly the evidence that was sent. It may be the daemon's last turn: a reply that went out whole
  // is true even if the daemon then dropped the connection.
  lemma SentIsAcknowledged(c: Codec, d: Bodies, o: Oracle, alone: bool, q: Request, data: bytes, received: seq<bytes>,
                           start: Daemon.Head, outbound: bytes, turns: seq<Daemon.Turn>, heads: seq<Daemon.Head>, end: Daemon.Turn)
    requires Faithful(c) && TakesCapture(q) && |c.encodeRequest(q)| <= MAX_CONTROL_FRAME && |data| < 0x1_0000_0000_0000_0000
    requires Daemon.ServedToEnd(c, d, o, alone, start, outbound, turns, heads, end)
    requires start.inbound <= CaptureUnit(c, q, |data| as uint64, data) && Join(received) <= outbound
    requires Resolves(c, q, received)
    ensures AcknowledgedIn(d, o, q, Header(|data| as uint64) + data, if turns == [] then end else turns[0])
  {
    hide *;
    ResolvedFront(c, q, received);
    CompleteFront(Join(received), outbound);
    ServedParts(c, d, o, alone, start, outbound, turns, heads, end);
    if turns == [] {
      NoTurnYet(c, d, o, alone, start.inbound, heads);
      assert outbound[|heads[0].sent|..] == outbound;
      EndAcknowledges(c, d, o, q, |data| as uint64, data, outbound, end);
    } else {
      FirstTurn(c, d, o, alone, start.inbound, outbound, turns, heads);
      TurnAcknowledges(c, d, o, q, |data| as uint64, data, turns[0]);
    }
  }

  lemma ResolvedFront(c: Codec, q: Request, received: seq<bytes>)
    requires Resolves(c, q, received)
    ensures Complete(Join(received))
    ensures var r := c.decodeResponse(Payload(Join(received))); r.Some? && r.value.status == "ok"
  {
    FirstFrame(received);
  }

  lemma NoTurnYet(c: Codec, d: Bodies, o: Oracle, alone: bool, inbound: bytes, heads: seq<Daemon.Head>)
    requires Daemon.Conversation(c, d, o, alone, inbound, [], heads)
    ensures |heads| == 1 && heads[0].inbound == inbound && heads[0].sent == []
  {
    var none: seq<Daemon.Turn> := [];
    assert heads[0].read + heads[0].inbound == inbound && none[..0] == [];
  }

  lemma CompleteFront(front: bytes, all: bytes)
    requires Complete(front) && front <= all
    ensures Complete(all) && Payload(all) == Payload(front)
  {
    MoreBehind(front, all[|front|..]);
    assert front + all[|front|..] == all;
  }

  lemma FirstTurn(c: Codec, d: Bodies, o: Oracle, alone: bool, inbound: bytes, outbound: bytes, turns: seq<Daemon.Turn>, heads: seq<Daemon.Head>)
    requires Daemon.Conversation(c, d, o, alone, inbound, turns, heads) && turns != [] && heads[|turns|].sent <= outbound
    ensures Daemon.RightTurn(c, d, o, turns[0])
    ensures Daemon.ExchangeOf(turns[0]).up <= inbound && turns[0].reply <= outbound
  {
    hide Daemon.Follows, RightReply, ServerExchange;
    assert forall i :: 0 <= i < |turns| ==> Daemon.RightTurn(c, d, o, turns[i]) && |turns[i].payload| <= MAX_CONTROL_FRAME;
    hide Daemon.RightTurn;
    TurnsSplit(turns);
    TurnsSplit(turns[..1]);
    NoTurns(turns[..1][1..]);
    assert turns[..|turns|] == turns;
    var e := Daemon.ExchangeOf(turns[0]);
    assert Up(Daemon.Exchanges(turns[..1])) == e.up + [] == e.up;
    assert heads[1].read == e.up;
  }

  // The frame at the front of what the daemon read is the extension's request, and what it took behind it the evidence.
  lemma SameCapture(c: Codec, q: Request, size: uint64, data: bytes, payload: bytes, evidence: bytes)
    requires Faithful(c) && |c.encodeRequest(q)| <= MAX_CONTROL_FRAME && |data| == size as nat && |payload| <= MAX_CONTROL_FRAME
    requires Frame(payload) + evidence <= CaptureUnit(c, q, size, data)
    ensures c.decodeRequest(payload) == Some(q)
    ensures EvidenceLength(evidence) == Some(|evidence|) ==> evidence == Header(size) + data
  {
    FrameUnit(payload, evidence);
    FrameWithEvidence(c.encodeRequest(q), size, data);
    var u, v := Frame(payload) + evidence, CaptureUnit(c, q, size, data);
    assert u + [] == u && v + [] == v;
    SameFrame(u, [], v, []);
    if EvidenceLength(evidence) == Some(|evidence|) {
      SameUnit(u, [], v, [], true);
      FrameUnit(c.encodeRequest(q), Header(size) + data);
    }
  }

  lemma TurnAcknowledges(c: Codec, d: Bodies, o: Oracle, q: Request, size: uint64, data: bytes, t: Daemon.Turn)
    requires Faithful(c) && TakesCapture(q) && |c.encodeRequest(q)| <= MAX_CONTROL_FRAME && |data| == size as nat
    requires Daemon.RightTurn(c, d, o, t) && Daemon.ExchangeOf(t).up <= CaptureUnit(c, q, size, data)
    ensures AcknowledgedIn(d, o, q, Header(size) + data, t)
  {
    SameCapture(c, q, size, data, t.payload, t.evidence);
    var r :| Framed(c, r, t.reply) && CaptureAnswer(d, t.db, o, q, t.evidence, r);
    CaptureAnswerTakes(d, t.db, o, q, t.evidence, r);
    hide Acknowledged;
  }

  lemma EndAcknowledges(c: Codec, d: Bodies, o: Oracle, q: Request, size: uint64, data: bytes, part: bytes, t: Daemon.Turn)
    requires Faithful(c) && TakesCapture(q) && |c.encodeRequest(q)| <= MAX_CONTROL_FRAME && |data| == size as nat
    requires Daemon.RightEnd(c, d, o, t, part) && Asked(t) <= CaptureUnit(c, q, size, data)
    requires Complete(part) && c.decodeResponse(Payload(part)).Some? && c.decodeResponse(Payload(part)).value.status == "ok"
    ensures AcknowledgedIn(d, o, q, Header(size) + data, t)
  {
    assert t.asked.Some?;
    SameCapture(c, q, size, data, t.payload, t.evidence);
    WholeReply(c, part, t.reply);
    var r :| Framed(c, r, t.reply) && ToldOfCapture(d, t.scene, t.db, o, q, t.evidence, r);
    FrameAlone(c.encodeResponse(r));
    CaptureAnswerTakes(d, t.db, o, q, t.evidence, r);
    hide Acknowledged;
  }

  // A front part of a reply without evidence that holds a whole frame is the whole reply.
  lemma WholeReply(c: Codec, part: bytes, reply: bytes)
    requires part <= reply && Complete(part) && IsReply(c, false, reply)
    ensures part == reply
  {
    CompleteFront(part, reply);
    assert part[..HEADER_LENGTH] == reply[..HEADER_LENGTH];
  }

  // ---------- a capture that is refused ----------

  // A capture that the daemon refuses is one that puts the two ends out of step.
  lemma RefusedIsMisaligning(c: Codec, q: Request, size: uint64, data: bytes)
    requires Faithful(c) && q.operation == CAPTURE && (q.version != VERSION || q.id == "")
    requires |c.encodeRequest(q)| <= MAX_CONTROL_FRAME && |data| == size as nat
    ensures var u := CaptureUnit(c, q, size, data); IsRequest(c, u) && Misaligning(c, u)
  {
    FrameUnit(c.encodeRequest(q), Header(size) + data);
    FrameWithEvidence(c.encodeRequest(q), size, data);
  }

  // The error a refused request gets.
  function Refusal(q: Request): Response {
    if q.version != VERSION then UnsupportedProtocol(q.id) else InvalidRequest(q.id)
  }

  lemma RefusedIsKept(c: Codec, d: Bodies, o: Oracle, alone: bool, q: Request, more: bytes, h: Daemon.Head)
    requires Faithful(c) && (q.version != VERSION || q.id == "") && |c.encodeRequest(q)| <= MAX_CONTROL_FRAME && Fits(c, Refusal(q))
    requires h.inbound == Frame(c.encodeRequest(q)) + more && Reliable(h.writePlan)
    requires Provides(h.inbound, h.readPlan, |Frame(c.encodeRequest(q))|)
    ensures Daemon.SurelyKept(c, d, o, alone, h)
  {
    FrameUnit(c.encodeRequest(q), more);
    FramePlanEnough(h.inbound, h.readPlan);
    hide FramePlan, Complete, Payload, Tail, Declared, Frame, Provides;
  }

  lemma RefusedLeaves(c: Codec, d: Bodies, o: Oracle, q: Request, more: bytes, t: Daemon.Turn, unread: bytes)
    requires Faithful(c) && (q.version != VERSION || q.id == "") && |c.encodeRequest(q)| <= MAX_CONTROL_FRAME
    requires Daemon.RightTurn(c, d, o, t) && Frame(c.encodeRequest(q)) + more == Daemon.ExchangeOf(t).up + unread
    ensures unread == more && t.asked == Some(q) && Framed(c, Refusal(q), t.reply)
  {
    FrameUnit(c.encodeRequest(q), more);
    FrameUnit(t.payload, t.evidence + unread);
    Reassociate(Frame(t.payload), t.evidence, unread);
    hide Frame, ServerExchange, Framed, ToldOfCapture, PayloadAnswer, PlainAnswer;
  }

  // A request of a foreign protocol version or with an empty ID, with anything behind it: the daemon replies and keeps
  // the connection, and what is behind the frame is unread. If the request is a capture, that is its evidence.
  method RefusedRequest(daemon: Daemon.Daemon, conn: Stream, q: Request, more: bytes, now: Instant) returns (keep: bool)
    requires Journal.Inv(daemon.store.db, daemon.store.oracle) && Faithful(daemon.codec)
    requires q.version != VERSION || q.id == ""
    requires |daemon.codec.encodeRequest(q)| <= MAX_CONTROL_FRAME && Fits(daemon.codec, Refusal(q))
    requires conn.inbound == Frame(daemon.codec.encodeRequest(q)) + more && Reliable(conn.writePlan)
    requires Provides(conn.inbound, conn.readPlan, |Frame(daemon.codec.encodeRequest(q))|)
    modifies daemon.store, conn
    ensures keep && conn.inbound == more
    ensures conn.consumed == old(conn.consumed) + Frame(daemon.codec.encodeRequest(q))
    ensures conn.outbound == old(conn.outbound) + FrameOf(daemon.codec, Refusal(q))
  {
    hide *;
    ghost var c, inbound, consumed := daemon.codec, conn.inbound, conn.consumed;
    HeadIsThis(daemon, conn);
    RefusedIsKept(c, daemon.bodies, daemon.store.oracle, daemon.alone, q, more, daemon.HeadOf(conn));
    ghost var t;
    keep, t := daemon.ServeNext(conn, now);
    AdvancedBy(inbound, consumed, Daemon.ExchangeOf(t).up, conn.inbound, conn.consumed);
    RefusedLeaves(c, daemon.bodies, daemon.store.oracle, q, more, t, conn.inbound);
    FramedIs(c, Refusal(q), t.reply);
    SameUp(Frame(c.encodeRequest(q)), Daemon.ExchangeOf(t).up, more);
  }

  lemma SameUp(a: bytes, b: bytes, more: bytes)
    requires a + more == b + more
    ensures a == b
  {
    assert |a| == |b| && (a + more)[..|a|] == a && (b + more)[..|b|] == b;
  }

  lemma FramedIs(c: Codec, r: Response, reply: bytes)
    requires Framed(c, r, reply)
    ensures reply == FrameOf(c, r)
  {
  }

  lemma HeadIsThis(daemon: Daemon.Daemon, conn: Stream)
    ensures daemon.HeadOf(conn) == Daemon.Head(conn.consumed, conn.outbound, conn.inbound, conn.readPlan, conn.writePlan,
                                               Quiet(daemon.store.faults), daemon.running, daemon.store.db)
  {
  }

  lemma AdvancedBy(inbound: bytes, consumed: bytes, unit: bytes, inboundNow: bytes, consumedNow: bytes)
    requires Advanced(inbound, consumed, unit, inboundNow, consumedNow)
    ensures inbound == unit + inboundNow && consumedNow == consumed + unit
  {
  }
}
