/** What a connection is served: over a steady reader and a reliable writer, with a store that works, every request
    that nothing stands in the way of has its turn. */
module Service {
  import opened Bytes
  import opened Streams
  import opened Tables
  import opened Storage
  import opened Framing
  import opened Wire
  import opened Rpc
  import opened Replies
  import opened Capture
  import opened Answers
  import opened Daemon
  import Attempts
  import Journal

  // A request on the wire: the payload of its frame, what it says, and the evidence behind it that the daemon takes.
  datatype Ask = Ask(payload: bytes, q: Request, evidence: bytes)

  ghost predicate Proper(c: Codec, a: Ask) {
    && |a.payload| <= MAX_CONTROL_FRAME && c.decodeRequest(a.payload) == Some(a.q)
    && if TakesCapture(a.q) then EvidenceLength(a.evidence) == Some(|a.evidence|) else a.evidence == []
  }

  function Unit(a: Ask): bytes
    requires |a.payload| <= MAX_CONTROL_FRAME
  {
    Frame(a.payload) + a.evidence
  }

  function OnTheWire(asks: seq<Ask>): bytes
    requires forall i :: 0 <= i < |asks| ==> |asks[i].payload| <= MAX_CONTROL_FRAME
  {
    if asks == [] then [] else Unit(asks[0]) + OnTheWire(asks[1..])
  }

  // With these tables the request can be answered, and the answer fits.
  ghost predicate Ready(c: Codec, b: Bodies, o: Oracle, db: Tables, a: Ask) {
    if a.q.version != VERSION then Fits(c, UnsupportedProtocol(a.q.id))
    else if a.q.id == "" || a.q.operation == "" then Fits(c, InvalidRequest(a.q.id))
    else if a.q.operation == CAPTURE then CaptureReady(c, b, o, db, a)
    else if a.q.operation == READ_PAYLOAD then PageThere(b, db, a.q) && Fits(c, PayloadResponse(b, db, a.q))
    else forall r :: PlainAnswer(b, db, true, o, a.q, r) ==> Fits(c, r)
  }

  ghost predicate CaptureReady(c: Codec, b: Bodies, o: Oracle, db: Tables, a: Ask) {
    && b.capture(a.q.body).Some? && ProperHash(o) && |a.evidence| >= HEADER_LENGTH
    && var body, data := b.capture(a.q.body).value, a.evidence[HEADER_LENGTH..];
    && ValidCapture(body) && Attempts.Beginnable(db, AttemptOf(a.q, body)) && body.payloadSize <= MAX_INT64
    && Declared(a.evidence) == body.payloadSize as nat
    && Welcome(db, a.q, body, data, o)
    && Fits(c, Acknowledgement(b, db, a.q, body, data, o))
  }

  // The reader provides all that is inbound and can fill the buffer at every call, the writer is reliable, the store
  // works, the daemon runs, and nobody else is at work.
  ghost predicate Healthy(alone: bool, h: Head) {
    && alone && h.quiet && h.running && Reliable(h.writePlan)
    && Provides(h.inbound, h.readPlan, |h.inbound|) && Roomy(h.readPlan)
  }

  lemma ReadyKeeps(c: Codec, b: Bodies, o: Oracle, a: Ask, more: bytes, h: Head)
    requires Proper(c, a) && Ready(c, b, o, h.db, a) && Healthy(true, h) && h.inbound == Unit(a) + more
    ensures SurelyKept(c, b, o, true, h)
  {
    FrameUnit(a.payload, a.evidence + more);
    Reassociate(Frame(a.payload), a.evidence, more);
    FramePlanEnough(h.inbound, h.readPlan);
    var plan := FramePlan(h.inbound, h.readPlan).value;
    FramePlanLeaves(h.inbound, h.readPlan);
    hide FramePlan, Payload, Tail, Frame;
    if TakesCapture(a.q) && a.q.operation != "" {
      CaptureKept(c, b, o, a, more, h.db, plan);
      hide CaptureReady, CaptureUnhindered;
    }
    hide PlainAnswer, PageThere;
  }

  // What a frame leaves of a reader that provides everything.
  lemma FramePlanLeaves(inbound: bytes, plan: seq<ReadStep>)
    requires FramePlan(inbound, plan).Some? && Provides(inbound, plan, |inbound|) && Roomy(plan)
    ensures Complete(inbound)
    ensures var later := FramePlan(inbound, plan).value; Provides(Tail(inbound), later, |Tail(inbound)|) && Roomy(later)
  {
    FillEnough(inbound, plan, HEADER_LENGTH);
    var rest, behind := Fill(inbound, plan, HEADER_LENGTH).value, inbound[HEADER_LENGTH..];
    FillEnough(behind, rest, Declared(inbound));
  }

  lemma CaptureKept(c: Codec, b: Bodies, o: Oracle, a: Ask, more: bytes, db: Tables, plan: seq<ReadStep>)
    requires CaptureReady(c, b, o, db, a) && EvidenceLength(a.evidence) == Some(|a.evidence|)
    requires var inbound := a.evidence + more; Provides(inbound, plan, |inbound|) && Roomy(plan)
    ensures CaptureUnhindered(c, b, db, a.q, a.evidence + more, plan, o)
  {
    var body, data, inbound := b.capture(a.q.body).value, a.evidence[HEADER_LENGTH..], a.evidence + more;
    assert inbound[..HEADER_LENGTH] == a.evidence[..HEADER_LENGTH];
    assert |data| == body.payloadSize as nat && inbound[HEADER_LENGTH..] == data + more;
    assert (data + more)[..body.payloadSize] == data && data[..body.payloadSize] == data;
    hide Fill, Welcome, ProperHash, ValidCapture, FateOf;
    FullReadsComplete(db, a.q, body, inbound, plan, o);
  }

  // ---------- one request after the other ----------

  lemma WireSplit(asks: seq<Ask>, k: nat)
    requires k < |asks| && forall i :: 0 <= i < |asks| ==> |asks[i].payload| <= MAX_CONTROL_FRAME
    ensures OnTheWire(asks[k..]) == Unit(asks[k]) + OnTheWire(asks[k + 1..])
  {
    assert asks[k..][0] == asks[k] && asks[k..][1..] == asks[k + 1..];
  }

  // What a turn takes from the inbound bytes is the request at their front.
  lemma TurnTakes(c: Codec, b: Bodies, o: Oracle, a: Ask, more: bytes, t: Turn, left: bytes)
    requires Proper(c, a) && RightTurn(c, b, o, t) && Unit(a) + more == ExchangeOf(t).up + left
    ensures t.asked == Some(a.q) && ExchangeOf(t).up == Unit(a) && left == more
  {
    HandledUnit(c, a.payload, a.q, a.evidence);
    FrameUnit(a.payload, a.evidence);
    FrameUnit(t.payload, t.evidence);
    SameFrame(ExchangeOf(t).up, left, Unit(a), more);
    SameUnit(ExchangeOf(t).up, left, Unit(a), more, TakesEvidence(c, Unit(a)));
    hide RightReply, Frame;
    assert left == (Unit(a) + more)[|Unit(a)|..] == more;
  }

  lemma HealthIsQuiet(h: Head)
    requires Healthy(true, h)
    ensures SceneOf(true, h).quiet
  {
    hide FramePlan;
  }

  lemma HealthLasts(o: Oracle, head: Head, t: Turn, next: Head)
    requires Healthy(true, head) && Follows(o, true, head, t, next)
    ensures Healthy(true, next)
  {
    hide Journal.Through;
  }

  // A turn takes from the inbound bytes what it consumes.
  lemma HeadMoves(c: Codec, b: Bodies, o: Oracle, alone: bool, inbound: bytes, turns: seq<Turn>, heads: seq<Head>, k: nat)
    requires Conversation(c, b, o, alone, inbound, turns, heads) && k < |turns|
    ensures RightTurn(c, b, o, turns[k]) && Follows(o, alone, heads[k], turns[k], heads[k + 1])
    ensures heads[k].inbound == ExchangeOf(turns[k]).up + heads[k + 1].inbound
  {
    hide Follows, RightReply, ServerExchange;
    var before, after := turns[..k], turns[..k + 1];
    assert after == before + [turns[k]];
    assert forall i :: 0 <= i < |before| ==> RightTurn(c, b, o, before[i]) && |before[i].payload| <= MAX_CONTROL_FRAME;
    LogGrows(c, b, o, before, turns[k], heads[k].read, heads[k].sent);
    assert heads[k + 1].read == heads[k].read + ExchangeOf(turns[k]).up;
    Reassociate(heads[k].read, ExchangeOf(turns[k]).up, heads[k + 1].inbound);
    Behind(heads[k].read, heads[k].inbound, ExchangeOf(turns[k]).up + heads[k + 1].inbound);
  }

  lemma Behind(a: bytes, x: bytes, y: bytes)
    requires a + x == a + y
    ensures x == y
  {
    assert (a + x)[|a|..] == x && (a + y)[|a|..] == y;
  }

  // Where the first k requests have had their turns.
  ghost predicate Reached(asks: seq<Ask>, turns: seq<Turn>, heads: seq<Head>, k: nat)
    requires forall i :: 0 <= i < |asks| ==> |asks[i].payload| <= MAX_CONTROL_FRAME
  {
    && k <= |asks| && k <= |turns| < |heads|
    && heads[k].inbound == OnTheWire(asks[k..]) && Healthy(true, heads[k])
    && forall i :: 0 <= i < k ==> TurnOf(asks[i], turns[i])
  }

  ghost predicate TurnOf(a: Ask, t: Turn) {
    && |a.payload| <= MAX_CONTROL_FRAME && |t.payload| <= MAX_CONTROL_FRAME
    && t.asked == Some(a.q) && ExchangeOf(t).up == Unit(a)
  }

  lemma {:induction false} ReachesEach(c: Codec, b: Bodies, o: Oracle, start: Head, outbound: bytes, turns: seq<Turn>,
                                       heads: seq<Head>, end: Turn, asks: seq<Ask>, k: nat)
    requires ServedToEnd(c, b, o, true, start, outbound, turns, heads, end)
    requires forall i :: 0 <= i < |asks| ==> Proper(c, asks[i]) && |asks[i].payload| <= MAX_CONTROL_FRAME
    requires start.inbound == OnTheWire(asks) && Healthy(true, start) && k <= |asks|
    requires forall i :: 0 <= i < |asks| && i <= |turns| ==> Ready(c, b, o, heads[i].db, asks[i])
    ensures Reached(asks, turns, heads, k)
  {
    hide *;
    ServedHas(c, b, o, start, outbound, turns, heads, end);
    if k == 0 {
      HealthAtStart(o, start, heads[0]);
      ReachedFirst(asks, turns, heads);
    } else {
      ReachesEach(c, b, o, start, outbound, turns, heads, end, asks, k - 1);
      var a, more := asks[k - 1], OnTheWire(asks[k..]);
      ReachedHas(asks, turns, heads, k - 1);
      WireSplit(asks, k - 1);
      ReadyKeeps(c, b, o, a, more, heads[k - 1]);
      assert k - 1 < |turns|;
      HeadMoves(c, b, o, true, start.inbound, turns, heads, k - 1);
      TurnGoes(c, b, o, a, more, heads[k - 1], turns[k - 1], heads[k]);
      ReachedNext(asks, turns, heads, k);
    }
  }

  lemma ServedHas(c: Codec, b: Bodies, o: Oracle, start: Head, outbound: bytes, turns: seq<Turn>, heads: seq<Head>, end: Turn)
    requires ServedToEnd(c, b, o, true, start, outbound, turns, heads, end)
    ensures |heads| == |turns| + 1 && Conversation(c, b, o, true, start.inbound, turns, heads)
    ensures Opens(o, true, start, heads[0]) && !SurelyKept(c, b, o, true, heads[|turns|])
  {
    hide SurelyKept, Opens, RightTurn, Follows;
  }

  lemma ReachedFirst(asks: seq<Ask>, turns: seq<Turn>, heads: seq<Head>)
    requires |heads| == |turns| + 1 && forall i :: 0 <= i < |asks| ==> |asks[i].payload| <= MAX_CONTROL_FRAME
    requires heads[0].inbound == OnTheWire(asks) && Healthy(true, heads[0])
    ensures Reached(asks, turns, heads, 0)
  {
    assert asks[0..] == asks;
    hide OnTheWire, Healthy, TurnOf;
  }

  lemma ReachedHas(asks: seq<Ask>, turns: seq<Turn>, heads: seq<Head>, k: nat)
    requires forall i :: 0 <= i < |asks| ==> |asks[i].payload| <= MAX_CONTROL_FRAME
    requires Reached(asks, turns, heads, k)
    ensures k <= |asks| && k <= |turns| < |heads| && heads[k].inbound == OnTheWire(asks[k..]) && Healthy(true, heads[k])
  {
    hide OnTheWire, Healthy, TurnOf;
  }

  lemma ReachedNext(asks: seq<Ask>, turns: seq<Turn>, heads: seq<Head>, k: nat)
    requires forall i :: 0 <= i < |asks| ==> |asks[i].payload| <= MAX_CONTROL_FRAME
    requires 0 < k <= |asks| && k <= |turns| < |heads| && Reached(asks, turns, heads, k - 1) && TurnOf(asks[k - 1], turns[k - 1])
    requires heads[k].inbound == OnTheWire(asks[k..]) && Healthy(true, heads[k])
    ensures Reached(asks, turns, heads, k)
  {
    hide OnTheWire, Healthy, TurnOf;
  }

  lemma HealthAtStart(o: Oracle, start: Head, head: Head)
    requires Healthy(true, start) && Opens(o, true, start, head)
    ensures Healthy(true, head) && head.inbound == start.inbound
  {
    hide Journal.Through;
  }

  lemma TurnGoes(c: Codec, b: Bodies, o: Oracle, a: Ask, more: bytes, head: Head, t: Turn, next: Head)
    requires Proper(c, a) && RightTurn(c, b, o, t) && Follows(o, true, head, t, next) && Healthy(true, head)
    requires |a.payload| <= MAX_CONTROL_FRAME && head.inbound == Unit(a) + more == ExchangeOf(t).up + next.inbound
    ensures TurnOf(a, t) && next.inbound == more && Healthy(true, next)
  {
    TurnTakes(c, b, o, a, more, t, next.inbound);
    HealthLasts(o, head, t, next);
    hide RightReply, Follows, Healthy;
  }

  // Main result: every request of a stream that nothing stands in the way of has its turn, and there is no other turn.
  lemma EveryRequestHasItsTurn(c: Codec, b: Bodies, o: Oracle, start: Head, outbound: bytes, turns: seq<Turn>,
                               heads: seq<Head>, end: Turn, asks: seq<Ask>)
    requires ServedToEnd(c, b, o, true, start, outbound, turns, heads, end)
    requires forall i :: 0 <= i < |asks| ==> Proper(c, asks[i]) && |asks[i].payload| <= MAX_CONTROL_FRAME
    requires start.inbound == OnTheWire(asks) && Healthy(true, start)
    requires forall i :: 0 <= i < |asks| && i <= |turns| ==> Ready(c, b, o, heads[i].db, asks[i])
    ensures |turns| == |asks| && forall i :: 0 <= i < |asks| ==> TurnOf(asks[i], turns[i])
    ensures forall i :: 0 <= i < |turns| ==> RightTurn(c, b, o, turns[i]) && turns[i].scene.quiet
  {
    hide Ready, Proper, Healthy, TurnOf, SurelyKept, Ends, Opens;
    var n := |asks|;
    ReachesEach(c, b, o, start, outbound, turns, heads, end, asks, n);
    assert asks[n..] == [];
    if |turns| > n {
      HeadMoves(c, b, o, true, start.inbound, turns, heads, n);
      FrameUnit(turns[n].payload, turns[n].evidence);
    }
    forall i | 0 <= i < |turns| ensures RightTurn(c, b, o, turns[i]) && turns[i].scene.quiet {
      ReachesEach(c, b, o, start, outbound, turns, heads, end, asks, i);
      ReachedHas(asks, turns, heads, i);
      HeadMoves(c, b, o, true, start.inbound, turns, heads, i);
      HealthIsQuiet(heads[i]);
    }
  }

  // ---------- without looking at the tables in between ----------

  lemma {:induction false} HeadsThrough(c: Codec, b: Bodies, o: Oracle, start: Head, outbound: bytes, turns: seq<Turn>,
                                        heads: seq<Head>, end: Turn, i: nat)
    requires ServedToEnd(c, b, o, true, start, outbound, turns, heads, end) && i <= |turns|
    ensures Journal.Through(start.db, heads[i].db, o)
  {
    hide RightTurn, Ends, Drawn, Journal.Through;
    if i > 0 {
      HeadsThrough(c, b, o, start, outbound, turns, heads, end, i - 1);
      assert Follows(o, true, heads[i - 1], turns[i - 1], heads[i]);
      Journal.ThroughBoth(start.db, heads[i - 1].db, turns[i - 1].db, o);
      Journal.ThroughBoth(start.db, turns[i - 1].db, heads[i].db, o);
    }
  }

  // Requests that are ready whatever transactions come first: reads of what is there, refusals, health.
  lemma AlwaysReadyIsServed(c: Codec, b: Bodies, o: Oracle, start: Head, outbound: bytes, turns: seq<Turn>,
                            heads: seq<Head>, end: Turn, asks: seq<Ask>)
    requires ServedToEnd(c, b, o, true, start, outbound, turns, heads, end)
    requires forall i :: 0 <= i < |asks| ==> Proper(c, asks[i]) && |asks[i].payload| <= MAX_CONTROL_FRAME
    requires start.inbound == OnTheWire(asks) && Healthy(true, start)
    requires forall i, db :: 0 <= i < |asks| && Journal.Through(start.db, db, o) ==> Ready(c, b, o, db, asks[i])
    ensures |turns| == |asks| && forall i :: 0 <= i < |asks| ==> TurnOf(asks[i], turns[i])
    ensures forall i :: 0 <= i < |turns| ==> RightTurn(c, b, o, turns[i]) && turns[i].scene.quiet
  {
    forall i | 0 <= i < |asks| && i <= |turns| ensures Ready(c, b, o, heads[i].db, asks[i]) {
      HeadsThrough(c, b, o, start, outbound, turns, heads, end, i);
      hide *;
    }
    hide *;
    EveryRequestHasItsTurn(c, b, o, start, outbound, turns, heads, end, asks);
  }

  // A capture that is ready at the start, on a connection of its own: it is acknowledged, with its evidence.
  lemma CaptureIsServed(c: Codec, b: Bodies, o: Oracle, start: Head, outbound: bytes, turns: seq<Turn>,
                        heads: seq<Head>, end: Turn, a: Ask)
    requires ServedToEnd(c, b, o, true, start, outbound, turns, heads, end)
    requires Proper(c, a) && start.inbound == Unit(a) && Healthy(true, start)
    requires TakesCapture(a.q) && CaptureReady(c, b, o, start.db, a)
    ensures |turns| == 1 && TurnOf(a, turns[0])
    ensures exists r :: Framed(c, r, turns[0].reply) && CaptureAnswer(b, turns[0].db, o, a.q, a.evidence, r)
  {
    assert |a.payload| <= MAX_CONTROL_FRAME;
    hide CaptureReady, Proper, Healthy, SurelyKept, Ends, CaptureAnswer, Framed, Follows, ServerExchange;
    var asks := [a];
    WireSplit(asks, 0);
    assert asks[0..] == asks && asks[1..] == [] && OnTheWire(asks) == Unit(a);
    assert heads[0].db == start.db;
    EveryRequestHasItsTurn(c, b, o, start, outbound, turns, heads, end, asks);
    assert TurnOf(asks[0], turns[0]) && RightTurn(c, b, o, turns[0]);
    SameTurn(a, turns[0]);
  }

  lemma SameTurn(a: Ask, t: Turn)
    requires TurnOf(a, t)
    ensures t.payload == a.payload && t.evidence == a.evidence
  {
    FrameUnit(a.payload, a.evidence);
    FrameUnit(t.payload, t.evidence);
  }

  // A page that is there is what a read of it is served, and an unknown ID is told that it is.
  lemma ReadIsServed(c: Codec, b: Bodies, o: Oracle, start: Head, outbound: bytes, turns: seq<Turn>,
                     heads: seq<Head>, end: Turn, a: Ask, query: PayloadQuery)
    requires ServedToEnd(c, b, o, true, start, outbound, turns, heads, end)
    requires Proper(c, a) && start.inbound == Unit(a) && Healthy(true, start) && Ready(c, b, o, start.db, a)
    requires a.q.version == VERSION && a.q.id != "" && a.q.operation == READ_PAYLOAD
    requires b.payload(a.q.body) == Some(query) && query.eventId != ""
    ensures |turns| == 1 && TurnOf(a, turns[0])
    ensures if query.eventId in turns[0].db.events then PageReply(c, b, turns[0].db, a.q.id, query, turns[0].reply)
            else Framed(c, StorageErrorResponse(a.q.id, NotFound), turns[0].reply)
  {
    assert |a.payload| <= MAX_CONTROL_FRAME;
    hide Ready, Proper, Healthy, SurelyKept, Ends, Framed, PageReply, Follows, ServerExchange;
    var asks := [a];
    WireSplit(asks, 0);
    assert asks[0..] == asks && asks[1..] == [] && OnTheWire(asks) == Unit(a);
    assert heads[0].db == start.db;
    EveryRequestHasItsTurn(c, b, o, start, outbound, turns, heads, end, asks);
    assert TurnOf(asks[0], turns[0]) && RightTurn(c, b, o, turns[0]);
  }
}
