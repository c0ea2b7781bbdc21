/** The extension's bounded queue of captures (extension/index.ts): an asynchronous drain sends one event at
    a time, while calls of enqueue, health and close come in between its waits. The class is the client's
    code, cut where the drain awaits; `Backlog` is what it amounts to: one list with a head being sent. */
module CaptureQueue {
  import opened Bytes

  datatype Event = Event(id: string, size: nat)

  // What the queue amounts to. The first pending event, if any, is being sent.
  datatype Backlog = Backlog(
    maxEvents: int, maxBytes: int, pending: seq<Event>, closed: bool,
    dropped: seq<Event>, attempts: seq<Event>, settled: seq<Event>, sent: seq<Event>, failed: seq<Event>, healthFailures: nat)

  function Sizes(events: seq<Event>): nat {
    if events == [] then 0 else Sizes(events[1..]) + events[0].size
  }

  lemma {:induction false} SizesAppend(events: seq<Event>, e: Event)
    ensures Sizes(events + [e]) == Sizes(events) + e.size
  {
    if events == [] {
      assert Sizes([e]) == e.size;
    } else {
      assert (events + [e])[1..] == events[1..] + [e];
      SizesAppend(events[1..], e);
    }
  }

  function Fresh(maxEvents: int, maxBytes: int): Backlog {
    Backlog(maxEvents, maxBytes, [], false, [], [], [], [], [], 0)
  }

  predicate Admits(b: Backlog, e: Event) {
    !b.closed && |b.pending| < b.maxEvents && Sizes(b.pending) + e.size <= b.maxBytes
  }

  // What an event that finds nothing ahead of it is: attempted at once.
  function Attempted(b: Backlog): Backlog {
    if b.pending == [] then b else b.(attempts := b.attempts + [b.pending[0]])
  }

  function Offer(b: Backlog, e: Event): Backlog {
    if !Admits(b, e) then b.(dropped := b.dropped + [e])
    else
      var b' := b.(pending := b.pending + [e]);
      if b.pending == [] then Attempted(b') else b'
  }

  function Settle(b: Backlog, ok: bool): Backlog
    requires b.pending != []
  {
    var b' := b.(pending := b.pending[1..], settled := b.settled + [b.pending[0]]);
    Attempted(if ok then b'.(sent := b.sent + [b.pending[0]]) else b'.(failed := b.failed + [b.pending[0]]))
  }

  class CaptureClient {
    const maxPendingEvents: int
    const maxPendingBytes: int
    var queue: seq<Event>
    var pendingEvents: int
    var pendingBytes: int
    var droppedEvents: nat
    var droppedBytes: nat
    var transportFailures: nat
    var draining: bool
    var closed: bool
    // The event whose request the suspended drain awaits.
    var awaited: Option<Event>
    ghost var backlog: Backlog

    // All but the drain: it may be between two events.
    ghost predicate Counted()
      reads this
    {
      && backlog.maxEvents == maxPendingEvents && backlog.maxBytes == maxPendingBytes
      && backlog.closed == closed
      && pendingEvents == |backlog.pending|
      && pendingBytes == Sizes(backlog.pending)
      && droppedEvents == |backlog.dropped|
      && droppedBytes == Sizes(backlog.dropped)
      && transportFailures == |backlog.failed| + backlog.healthFailures
    }

    // The drain is active exactly while an event is pending, and then it awaits the first.
    ghost predicate Valid()
      reads this
    {
      && Counted()
      && draining == (backlog.pending != [])
      && awaited == (if backlog.pending == [] then None else Some(backlog.pending[0]))
      && queue == (if backlog.pending == [] then [] else backlog.pending[1..])
    }

    constructor (maxEvents: int, maxBytes: int)
      ensures Valid() && backlog == Fresh(maxEvents, maxBytes)
    {
      maxPendingEvents, maxPendingBytes := maxEvents, maxBytes;
      queue, pendingEvents, pendingBytes, droppedEvents, droppedBytes, transportFailures := [], 0, 0, 0, 0, 0;
      draining, closed, awaited := false, false, None;
      backlog := Fresh(maxEvents, maxBytes);
    }

    method Enqueue(event: Event) returns (accepted: bool)
      requires Valid()
      modifies this
      ensures Valid() && backlog == Offer(old(backlog), event)
      ensures accepted == Admits(old(backlog), event)
      ensures accepted <==>
                && !old(closed) && old(pendingEvents) < maxPendingEvents
                && event.size <= maxPendingBytes && old(pendingBytes) + event.size <= maxPendingBytes
      ensures closed == old(closed)
      ensures pendingEvents == old(pendingEvents) + if accepted then 1 else 0
      ensures pendingBytes == old(pendingBytes) + if accepted then event.size else 0
      ensures droppedEvents == old(droppedEvents) + if accepted then 0 else 1
      ensures droppedBytes == old(droppedBytes) + if accepted then 0 else event.size
    {
      SizesAppend(backlog.pending, event);
      SizesAppend(backlog.dropped, event);
      hide Sizes;
      if closed || event.size > maxPendingBytes || pendingEvents >= maxPendingEvents || pendingBytes + event.size > maxPendingBytes {
        droppedEvents := droppedEvents + 1;
        droppedBytes := droppedBytes + event.size;
        backlog := backlog.(dropped := backlog.dropped + [event]);
        return false;
      }
      queue := queue + [event];
      pendingEvents := pendingEvents + 1;
      pendingBytes := pendingBytes + event.size;
      backlog := backlog.(pending := backlog.pending + [event]);
      Drain();
      return true;
    }

    // The drain up to its first wait.
    method Drain()
      requires Counted() && |backlog.pending| > 0
      requires draining ==> awaited == Some(backlog.pending[0]) && queue == backlog.pending[1..]
      requires !draining ==> awaited == None && queue == backlog.pending
      modifies this
      ensures Valid()
      ensures backlog == if old(draining) then old(backlog) else Attempted(old(backlog))
    {
      if draining {
        return;
      }
      draining := true;
      NextRequest();
    }

    // The head of the drain's loop: the next request, up to the wait for it, or the end.
    method NextRequest()
      requires Counted() && draining && awaited == None && queue == backlog.pending
      modifies this
      ensures Valid() && backlog == Attempted(old(backlog))
    {
      if |queue| > 0 {
        awaited := Some(queue[0]);
        backlog := Attempted(backlog);
        queue := queue[1..];
      } else {
        draining := false;
      }
    }

    // The awaited request settled: the drain runs on to its next wait, or to its end.
    method Resume(ok: bool)
      requires Valid() && awaited.Some?
      modifies this
      ensures Valid() && backlog == Settle(old(backlog), ok)
      ensures pendingEvents == old(pendingEvents) - 1 && pendingBytes == old(pendingBytes) - old(awaited).value.size
      ensures transportFailures == old(transportFailures) + if ok then 0 else 1
      ensures closed == old(closed) && droppedEvents == old(droppedEvents) && droppedBytes == old(droppedBytes)
      ensures draining <==> old(queue) != []
      ensures old(queue) != [] ==> awaited == Some(old(queue)[0]) && queue == old(queue)[1..]
    {
      var event := awaited.value;
      if !ok {
        transportFailures := transportFailures + 1;
      }
      pendingEvents := pendingEvents - 1;
      pendingBytes := pendingBytes - event.size;
      awaited := None;
      var rest := backlog.(pending := backlog.pending[1..], settled := backlog.settled + [event]);
      backlog := if ok then rest.(sent := rest.sent + [event]) else rest.(failed := rest.failed + [event]);
      NextRequest();
    }

    // A health request that got no proper answer; it leaves the queue alone.
    method HealthFailed()
      requires Valid()
      modifies this
      ensures Valid() && backlog == old(backlog).(healthFailures := old(backlog).healthFailures + 1)
    {
      transportFailures := transportFailures + 1;
      backlog := backlog.(healthFailures := backlog.healthFailures + 1);
    }

    method Close()
      requires Valid()
      modifies this
      ensures Valid() && backlog == old(backlog).(closed := true)
    {
      closed := true;
      backlog := backlog.(closed := true);
    }

    // What flush looks at between its sleeps.
    method Busy() returns (busy: bool)
      requires Valid()
      ensures busy <==> backlog.pending != []
    {
      busy := draining || |queue| > 0;
    }
  }

  // ---------- whole runs ----------

  datatype Input = Enqueued(event: Event) | Settled(ok: bool) | HealthFailure | Closed

  function Step(b: Backlog, input: Input): Backlog {
    match input
    case Enqueued(e) => Offer(b, e)
    case Settled(ok) => if b.pending == [] then b else Settle(b, ok)
    case HealthFailure => b.(healthFailures := b.healthFailures + 1)
    case Closed => b.(closed := true)
  }

  function Run(b: Backlog, inputs: seq<Input>): Backlog
    decreases |inputs|
  {
    if inputs == [] then b else Step(Run(b, inputs[..|inputs| - 1]), inputs[|inputs| - 1])
  }

  // The events offered, in order.
  function Offered(inputs: seq<Input>): seq<Event>
    decreases |inputs|
  {
    if inputs == [] then []
    else
      var last := inputs[|inputs| - 1];
      Offered(inputs[..|inputs| - 1]) + if last.Enqueued? then [last.event] else []
  }

  // Two lists merge into a third that keeps the order of both.
  ghost predicate Merges(a: seq<Event>, b: seq<Event>, all: seq<Event>)
    decreases |all|
  {
    if all == [] then a == [] && b == []
    else
      var n, last := |all| - 1, all[|all| - 1];
      || (a != [] && a[|a| - 1] == last && Merges(a[..|a| - 1], b, all[..n]))
      || (b != [] && b[|b| - 1] == last && Merges(a, b[..|b| - 1], all[..n]))
  }

  lemma MergesGrow(a: seq<Event>, b: seq<Event>, all: seq<Event>, e: Event)
    requires Merges(a, b, all)
    ensures Merges(a + [e], b, all + [e]) && Merges(a, b + [e], all + [e])
  {
    assert (all + [e])[..|all|] == all && (a + [e])[..|a|] == a && (b + [e])[..|b|] == b;
  }

  function UnderWay(b: Backlog): seq<Event> { if b.pending == [] then [] else [b.pending[0]] }

  function Waiting(b: Backlog): seq<Event> { if b.pending == [] then [] else b.pending[1..] }

  // What holds after any run: both bounds; the offered events are the dropped ones and, in the order of their
  // acceptance, those attempted and those still waiting; one attempt is under way exactly while an event is
  // pending, and is its first; every earlier attempt was settled once, one after the other.
  ghost predicate Accounted(b: Backlog, offered: seq<Event>) {
    && (b.pending != [] ==> |b.pending| <= b.maxEvents && Sizes(b.pending) <= b.maxBytes)
    && Merges(b.dropped, b.attempts + Waiting(b), offered)
    && b.attempts == b.settled + UnderWay(b)
    && Merges(b.sent, b.failed, b.settled)
  }

  lemma OfferAccounts(b: Backlog, offered: seq<Event>, e: Event)
    requires Accounted(b, offered)
    ensures Accounted(Offer(b, e), offered + [e])
  {
    MergesGrow(b.dropped, b.attempts + Waiting(b), offered, e);
    SizesAppend(b.pending, e);
    hide Merges, Sizes;
    assert Admits(b, e) ==> Offer(b, e).attempts + Waiting(Offer(b, e)) == b.attempts + Waiting(b) + [e];
  }

  lemma SettleAccounts(b: Backlog, offered: seq<Event>, ok: bool)
    requires Accounted(b, offered) && b.pending != []
    ensures Accounted(Settle(b, ok), offered)
  {
    hide Merges;
    SizesRest(b.pending);
    MergesGrow(b.sent, b.failed, b.settled, b.pending[0]);
    hide Sizes;
    var b' := Settle(b, ok);
    assert b'.pending == Waiting(b);
    if b'.pending == [] {
      assert b'.attempts == b.attempts && Waiting(b') == Waiting(b);
    } else {
      FrontMoves(b.attempts, b'.pending);
    }
  }

  lemma FrontMoves(a: seq<Event>, b: seq<Event>)
    requires b != []
    ensures a + [b[0]] + b[1..] == a + b
  {
  }

  lemma SizesRest(events: seq<Event>)
    requires events != []
    ensures Sizes(events) == events[0].size + Sizes(events[1..])
  {
  }

  lemma {:induction false} RunsAccount(maxEvents: int, maxBytes: int, inputs: seq<Input>)
    ensures Accounted(Run(Fresh(maxEvents, maxBytes), inputs), Offered(inputs))
    decreases |inputs|
  {
    if inputs != [] {
      var before, input := inputs[..|inputs| - 1], inputs[|inputs| - 1];
      RunsAccount(maxEvents, maxBytes, before);
      var b, offered := Run(Fresh(maxEvents, maxBytes), before), Offered(before);
      assert input.Enqueued? || Offered(inputs) == offered;
      hide Merges, Sizes, Admits;
      match input
      case Enqueued(e) => OfferAccounts(b, offered, e);
      case Settled(ok) => if b.pending != [] { SettleAccounts(b, offered, ok); }
      case _ =>
    }
  }

  lemma {:induction false} MergesCount(a: seq<Event>, b: seq<Event>, all: seq<Event>)
    requires Merges(a, b, all)
    ensures |all| == |a| + |b|
    decreases |all|
  {
    if all != [] {
      var n, last := |all| - 1, all[|all| - 1];
      if a != [] && a[|a| - 1] == last && Merges(a[..|a| - 1], b, all[..n]) {
        MergesCount(a[..|a| - 1], b, all[..n]);
      } else {
        MergesCount(a, b[..|b| - 1], all[..n]);
      }
    }
  }

  // Calls of enqueue = dropped + sent + failed + pending.
  lemma {:induction false} CallsBalance(maxEvents: int, maxBytes: int, inputs: seq<Input>)
    ensures var b := Run(Fresh(maxEvents, maxBytes), inputs);
            |Offered(inputs)| == |b.dropped| + |b.sent| + |b.failed| + |b.pending|
  {
    RunsAccount(maxEvents, maxBytes, inputs);
    var b := Run(Fresh(maxEvents, maxBytes), inputs);
    MergesCount(b.dropped, b.attempts + Waiting(b), Offered(inputs));
    MergesCount(b.sent, b.failed, b.settled);
    hide Merges, Offered;
  }
}
