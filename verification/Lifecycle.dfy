/** The daemon's life under every interleaving: calls of Start and Close by any number of goroutines, the
    accept loop and the connection handlers. One step is what one goroutine does between two points at
    which another may run: a section under the mutex, a channel or wait-group operation, or a call. */
module Lifecycle {
  import opened Bytes

  type Goroutine = nat
  type Conn = nat

  datatype State = New | Starting | Running | Closing | Closed

  // A call of Start: refused, or one by one through acquiring its resources, publishing them, and
  // signalling; or, on an error, through releasing what it acquired.
  datatype StartPc =
    | Called | Locking | Opening | Listening | Publishing | Spawning | Signalling | Succeeded
    | Unlistening | ClosingStore | Unlocking | Aborting | Failed | Refused

  // A call of Close: the retry loop (with the number of waits for a start behind it), waiting for another
  // call, or the shutdown itself.
  datatype ClosePc =
    | Entering(waits: nat) | AwaitingStart(waits: nat) | AwaitingClose
    | StopListening | AwaitingAccept | Cutting | AwaitingHandlers
    | ShutStore | RemoveSocket | ReleaseLock | MarkClosed | SignalClosed | Returned

  datatype AcceptPc = NotSpawned | Accepting | HasSlot(conn: Conn) | GivingBack(conn: Conn) | Registered(conn: Conn) | Exited

  // A channel that is made and later closed.
  datatype Signal = NotMade | Open | Done

  // Who is where: the calls, and what they share under the mutex. The last two fields remember which
  // call left New and which entered Closing.
  datatype Control = Control(
    state: State, startDone: Signal, closeDone: Signal,
    starts: map<Goroutine, StartPc>, closes: map<Goroutine, ClosePc>,
    starter: Option<Goroutine>, closer: Option<Goroutine>)

  datatype Resources = Resources(lockHeld: bool, storeOpen: bool, listenerOpen: bool, socketBound: bool)

  // The accept loop, and the handlers by where they are: serving, then about to unregister, about to
  // give back their slot, about to leave the wait group.
  datatype Network = Network(
    accept: AcceptPc, acceptWG: nat, connectionWG: nat, slots: nat, max: nat, connections: set<Conn>,
    serving: set<Conn>, dropping: set<Conn>, freeing: set<Conn>, leaving: set<Conn>)

  datatype Server = Server(ctl: Control, res: Resources, net: Network)

  datatype Action =
    | CallStart(g: Goroutine) | StartEnter(g: Goroutine)
    | StartStep(g: Goroutine, ok: bool) | StartPublish(g: Goroutine) | StartSpawn(g: Goroutine) | StartSignal(g: Goroutine)
    | StartCleanup(g: Goroutine) | StartAbort(g: Goroutine)
    | CallClose(g: Goroutine) | CloseEnter(g: Goroutine) | CloseRetry(g: Goroutine) | CloseWaited(g: Goroutine)
    | CloseStep(g: Goroutine)
    | Accept(conn: Conn) | AcceptError | AcceptRegister | AcceptGiveBack | AcceptSpawn | AcceptClosed
    | HandlerEnds(conn: Conn) | HandlerUnregisters(conn: Conn) | HandlerFrees(conn: Conn) | HandlerLeaves(conn: Conn)

  const CLOSED_RESOURCES := Resources(false, false, false, false)

  function Init(max: nat): Server {
    Server(Control(New, NotMade, NotMade, map[], map[], None, None), CLOSED_RESOURCES,
           Network(NotSpawned, 0, 0, 0, max, {}, {}, {}, {}, {}))
  }

  // ---------- steps: the calls ----------

  predicate StartAt(c: Control, g: Goroutine, pc: StartPc) { g in c.starts && c.starts[g] == pc }

  predicate CloseAt(c: Control, g: Goroutine, pc: ClosePc) { g in c.closes && c.closes[g] == pc }

  function SetStart(c: Control, g: Goroutine, pc: StartPc): Control { c.(starts := c.starts[g := pc]) }

  function SetClose(c: Control, g: Goroutine, pc: ClosePc): Control { c.(closes := c.closes[g := pc]) }

  function NextStart(pc: StartPc, ok: bool): Option<StartPc> {
    match pc
    case Locking => Some(if ok then Opening else Aborting)
    case Opening => Some(if ok then Listening else Unlocking)
    case Listening => Some(if ok then Publishing else ClosingStore)
    case Publishing => if ok then None else Some(Unlistening)
    case _ => None
  }

  function NextCleanup(pc: StartPc): Option<StartPc> {
    match pc
    case Unlistening => Some(ClosingStore)
    case ClosingStore => Some(Unlocking)
    case Unlocking => Some(Aborting)
    case _ => None
  }

  function NextShutdown(pc: ClosePc): Option<ClosePc> {
    match pc
    case StopListening => Some(AwaitingAccept)
    case AwaitingAccept => Some(Cutting)
    case Cutting => Some(AwaitingHandlers)
    case AwaitingHandlers => Some(ShutStore)
    case ShutStore => Some(RemoveSocket)
    case RemoveSocket => Some(ReleaseLock)
    case ReleaseLock => Some(MarkClosed)
    case MarkClosed => Some(SignalClosed)
    case SignalClosed => Some(Returned)
    case _ => None
  }

  predicate ControlEnabled(c: Control, a: Action) {
    match a
    case CallStart(g) => g !in c.starts && g !in c.closes
    case StartEnter(g) => StartAt(c, g, Called)
    case StartStep(g, ok) => g in c.starts && NextStart(c.starts[g], ok).Some?
    case StartPublish(g) => StartAt(c, g, Publishing)
    case StartSpawn(g) => StartAt(c, g, Spawning)
    case StartSignal(g) => StartAt(c, g, Signalling)
    case StartCleanup(g) => g in c.starts && NextCleanup(c.starts[g]).Some?
    case StartAbort(g) => StartAt(c, g, Aborting)
    case CallClose(g) => g !in c.starts && g !in c.closes
    case CloseEnter(g) => g in c.closes && c.closes[g].Entering?
    case CloseRetry(g) => g in c.closes && c.closes[g].AwaitingStart? && c.startDone == Done
    case CloseWaited(g) => CloseAt(c, g, AwaitingClose) && c.closeDone == Done
    case CloseStep(g) => g in c.closes && NextShutdown(c.closes[g]).Some?
    case _ => true
  }

  function ControlDo(c: Control, a: Action): Control
    requires ControlEnabled(c, a)
  {
    match a
    case CallStart(g) => SetStart(c, g, Called)
    case StartEnter(g) =>
      if c.state != New then SetStart(c, g, Refused)
      else SetStart(c, g, Locking).(state := Starting, startDone := Open, starter := Some(g))
    case StartStep(g, ok) => SetStart(c, g, NextStart(c.starts[g], ok).value)
    case StartPublish(g) => SetStart(c, g, Spawning).(state := Running)
    case StartSpawn(g) => SetStart(c, g, Signalling)
    case StartSignal(g) => SetStart(c, g, Succeeded).(startDone := Done)
    case StartCleanup(g) => SetStart(c, g, NextCleanup(c.starts[g]).value)
    case StartAbort(g) => SetStart(c, g, Failed).(state := Closed, startDone := Done)
    case CallClose(g) => SetClose(c, g, Entering(0))
    case CloseEnter(g) =>
      (match c.state
       case Starting => SetClose(c, g, AwaitingStart(c.closes[g].waits))
       case Closed => SetClose(c, g, Returned)
       case Closing => SetClose(c, g, AwaitingClose)
       case _ => SetClose(c, g, StopListening).(state := Closing, closeDone := Open, closer := Some(g)))
    case CloseRetry(g) => SetClose(c, g, Entering(c.closes[g].waits + 1))
    case CloseWaited(g) => SetClose(c, g, Returned)
    case CloseStep(g) =>
      var next := SetClose(c, g, NextShutdown(c.closes[g]).value);
      if c.closes[g] == MarkClosed then next.(state := Closed)
      else if c.closes[g] == SignalClosed then next.(closeDone := Done)
      else next
    case _ => c
  }

  // ---------- steps: resources ----------

  function ResourcesDo(s: Server, a: Action): Resources
    requires ControlEnabled(s.ctl, a)
  {
    var r := s.res;
    match a
    case StartStep(g, ok) =>
      if !ok then r
      else if s.ctl.starts[g] == Locking then r.(lockHeld := true)
      else if s.ctl.starts[g] == Opening then r.(storeOpen := true)
      else r.(listenerOpen := true, socketBound := true)
    case StartCleanup(g) =>
      if s.ctl.starts[g] == Unlistening then r.(listenerOpen := false, socketBound := false)
      else if s.ctl.starts[g] == ClosingStore then r.(storeOpen := false)
      else r.(lockHeld := false)
    case CloseStep(g) =>
      (match s.ctl.closes[g]
       case StopListening => r.(listenerOpen := false)
       case ShutStore => r.(storeOpen := false)
       case RemoveSocket => r.(socketBound := false)
       case ReleaseLock => r.(lockHeld := false)
       case _ => r)
    case _ => r
  }

  // ---------- steps: accept loop and handlers ----------

  predicate KnownConn(n: Network, c: Conn) {
    c in n.serving || c in n.dropping || c in n.freeing || c in n.leaving
  }

  // A receive from an empty channel and a wait for a counter block.
  predicate NetworkEnabled(n: Network, a: Action) {
    match a
    case Accept(c) => n.accept == Accepting && !KnownConn(n, c)
    case AcceptError => n.accept == Accepting
    case AcceptRegister => n.accept.HasSlot?
    case AcceptGiveBack => n.accept.GivingBack? && n.slots > 0 && n.acceptWG > 0
    case AcceptSpawn => n.accept.Registered?
    case AcceptClosed => n.accept == Accepting && n.acceptWG > 0
    case HandlerEnds(c) => c in n.serving
    case HandlerUnregisters(c) => c in n.dropping
    case HandlerFrees(c) => c in n.freeing && n.slots > 0
    case HandlerLeaves(c) => c in n.leaving && n.connectionWG > 0
    case _ => true
  }

  predicate Enabled(s: Server, a: Action) {
    && ControlEnabled(s.ctl, a) && NetworkEnabled(s.net, a)
    && (a.CloseStep? && s.ctl.closes[a.g] == AwaitingAccept ==> s.net.acceptWG == 0)
    && (a.CloseStep? && s.ctl.closes[a.g] == AwaitingHandlers ==> s.net.connectionWG == 0)
    && (a.Accept? ==> s.res.listenerOpen)
    && (a.AcceptClosed? ==> !s.res.listenerOpen)
  }

  function NetworkDo(n: Network, a: Action, running: bool): Network
    requires NetworkEnabled(n, a)
  {
    match a
    case StartPublish(_) => n.(acceptWG := n.acceptWG + 1)
    case StartSpawn(_) => n.(accept := Accepting)
    case Accept(c) => if n.slots < n.max then n.(accept := HasSlot(c), slots := n.slots + 1) else n
    case AcceptRegister =>
      var c := n.accept.conn;
      if !running then n.(accept := GivingBack(c))
      else n.(accept := Registered(c), connections := n.connections + {c}, connectionWG := n.connectionWG + 1)
    case AcceptGiveBack => n.(accept := Exited, slots := n.slots - 1, acceptWG := n.acceptWG - 1)
    case AcceptSpawn => n.(accept := Accepting, serving := n.serving + {n.accept.conn})
    case AcceptClosed => n.(accept := Exited, acceptWG := n.acceptWG - 1)
    case HandlerEnds(c) => n.(serving := n.serving - {c}, dropping := n.dropping + {c})
    case HandlerUnregisters(c) =>
      n.(dropping := n.dropping - {c}, connections := n.connections - {c}, freeing := n.freeing + {c})
    case HandlerFrees(c) => n.(freeing := n.freeing - {c}, slots := n.slots - 1, leaving := n.leaving + {c})
    case HandlerLeaves(c) => n.(leaving := n.leaving - {c}, connectionWG := n.connectionWG - 1)
    case _ => n
  }

  function Do(s: Server, a: Action): Server
    requires Enabled(s, a)
  {
    Server(ControlDo(s.ctl, a), ResourcesDo(s, a), NetworkDo(s.net, a, s.ctl.state == Running))
  }

  // ---------- the invariant ----------

  predicate Acquiring(pc: StartPc) {
    pc in {Locking, Opening, Listening, Publishing, Unlistening, ClosingStore, Unlocking, Aborting}
  }

  predicate Published(pc: StartPc) { pc == Spawning || pc == Signalling || pc == Succeeded }

  // How far a shutdown is.
  function Stage(pc: ClosePc): nat {
    match pc
    case StopListening => 1
    case AwaitingAccept => 2
    case Cutting => 3
    case AwaitingHandlers => 4
    case ShutStore => 5
    case RemoveSocket => 6
    case ReleaseLock => 7
    case MarkClosed => 8
    case SignalClosed => 9
    case Returned => 10
    case _ => 0
  }

  // The program counter of the one call of Start that got past the first check; Called if there is none.
  function TheStart(c: Control): StartPc {
    if c.starter.Some? && c.starter.value in c.starts then c.starts[c.starter.value] else Called
  }

  // The stage of the one call of Close that shuts down; zero if there is none.
  function TheStage(c: Control): nat {
    if c.closer.Some? && c.closer.value in c.closes then Stage(c.closes[c.closer.value]) else 0
  }

  // Only the starter is past the first check, and only the closer is shutting down.
  ghost predicate CallsInv(c: Control) {
    && (forall g :: g in c.starts ==> c.starts[g] == Called || c.starts[g] == Refused || c.starter == Some(g))
    && (forall g :: g in c.closes && NextShutdown(c.closes[g]).Some? ==> c.closer == Some(g))
    && (forall g :: g in c.closes && c.closes[g] == Returned ==> c.state == Closed)
    && (c.starter.Some? ==> c.starter.value in c.starts && TheStart(c) != Called && TheStart(c) != Refused)
    && (c.closer.Some? ==> c.closer.value in c.closes && TheStage(c) > 0)
  }

  // The shared state says where those two are.
  ghost predicate StateInv(c: Control) {
    var pc, stage := TheStart(c), TheStage(c);
    && (c.state == New <==> c.starter == None && c.closer == None)
    && (c.state == Starting <==> Acquiring(pc))
    && (c.state == Running <==> Published(pc) && stage == 0)
    && (c.state == Closing <==> 0 < stage <= 8)
    && (stage > 0 ==> pc == Called || Published(pc))
    && c.startDone == (if c.starter == None then NotMade else if pc == Succeeded || pc == Failed then Done else Open)
    && c.closeDone == (if c.closer == None then NotMade else if stage == 10 then Done else Open)
  }

  // No call of Close waits for a start more than once, and each waits for something.
  ghost predicate WaitsInv(c: Control) {
    forall g :: g in c.closes ==> WaitsWell(c, c.closes[g])
  }

  predicate WaitsWell(c: Control, pc: ClosePc) {
    match pc
    case Entering(waits) => waits == 0 || (waits == 1 && c.startDone == Done)
    case AwaitingStart(waits) => waits == 0 && c.starter.Some?
    case AwaitingClose => c.closer.Some?
    case _ => true
  }

  // What the owner of each resource holds, by where it is; this fixes the order of release.
  function Held(pc: StartPc, stage: nat): Resources {
    if Published(pc) then
      Resources(stage <= 7, stage <= 5, stage <= 1, stage <= 6)
    else
      match pc
      case Opening | Unlocking => CLOSED_RESOURCES.(lockHeld := true)
      case Listening | ClosingStore => CLOSED_RESOURCES.(lockHeld := true, storeOpen := true)
      case Publishing | Unlistening => Resources(true, true, true, true)
      case _ => CLOSED_RESOURCES
  }

  // The accept loop lives from its start until shutdown has awaited it, and handlers only while it or the
  // wait for them lasts.
  ghost predicate AcceptInv(pc: StartPc, stage: nat, n: Network) {
    && (n.accept == NotSpawned <==> pc != Signalling && pc != Succeeded)
    && n.acceptWG == (if Published(pc) && n.accept != Exited then 1 else 0)
    && (stage >= 3 ==> n.acceptWG == 0)
    && (n.accept == NotSpawned ==> n.connectionWG == 0 && n.slots == 0)
    && (stage >= 5 ==> n.connectionWG == 0)
  }

  function HeldByAccept(n: Network): nat {
    if n.accept.HasSlot? || n.accept.GivingBack? || n.accept.Registered? then 1 else 0
  }

  function Registering(n: Network): set<Conn> {
    if n.accept.Registered? then {n.accept.conn} else {}
  }

  // A connection has one handler, and the one the accept loop holds has none yet.
  ghost predicate ApartInv(n: Network) {
    && n.serving !! n.dropping !! n.freeing !! n.leaving
    && (HeldByAccept(n) == 1 ==> !KnownConn(n, n.accept.conn))
  }

  // Slots and the wait group count the handlers.
  ghost predicate NumbersInv(n: Network) {
    && n.slots == |n.serving| + |n.dropping| + |n.freeing| + HeldByAccept(n)
    && n.slots <= n.max
    && n.connectionWG == |n.serving| + |n.dropping| + |n.freeing| + |n.leaving| + |Registering(n)|
  }

  // The registered connections are those of the handlers that have not unregistered.
  ghost predicate RegisteredInv(n: Network) { n.connections == n.serving + n.dropping + Registering(n) }

  ghost predicate CountInv(n: Network) { ApartInv(n) && NumbersInv(n) && RegisteredInv(n) }

  ghost predicate ControlInv(c: Control) { CallsInv(c) && StateInv(c) && WaitsInv(c) }

  ghost predicate Inv(s: Server) {
    && ControlInv(s.ctl)
    && s.res == Held(TheStart(s.ctl), TheStage(s.ctl))
    && AcceptInv(TheStart(s.ctl), TheStage(s.ctl), s.net)
    && CountInv(s.net)
  }

  lemma InitHolds(max: nat)
    ensures Inv(Init(max))
  {
  }

  // ---------- every step keeps it ----------

  predicate OfStart(a: Action) {
    a.CallStart? || a.StartEnter? || a.StartStep? || a.StartPublish? || a.StartSpawn? || a.StartSignal? || a.StartCleanup? || a.StartAbort?
  }

  predicate OfClose(a: Action) { a.CallClose? || a.CloseEnter? || a.CloseRetry? || a.CloseWaited? || a.CloseStep? }

  lemma StartsKeepControl(c: Control, a: Action)
    requires ControlInv(c) && ControlEnabled(c, a) && OfStart(a)
    ensures ControlInv(ControlDo(c, a))
  {
    StartsKeepCalls(c, a);
    StartsKeepState(c, a);
    StartsKeepWaits(c, a);
    hide CallsInv, StateInv, WaitsInv;
  }

  lemma StartsKeepCalls(c: Control, a: Action)
    requires CallsInv(c) && StateInv(c) && ControlEnabled(c, a) && OfStart(a)
    ensures CallsInv(ControlDo(c, a))
  {
  }

  lemma StartsKeepState(c: Control, a: Action)
    requires CallsInv(c) && StateInv(c) && ControlEnabled(c, a) && OfStart(a)
    ensures StateInv(ControlDo(c, a))
  {
  }

  lemma StartsKeepWaits(c: Control, a: Action)
    requires StateInv(c) && CallsInv(c) && WaitsInv(c) && ControlEnabled(c, a) && OfStart(a)
    ensures WaitsInv(ControlDo(c, a))
  {
  }

  lemma ClosesKeepControl(c: Control, a: Action)
    requires ControlInv(c) && ControlEnabled(c, a) && OfClose(a)
    ensures ControlInv(ControlDo(c, a))
  {
    if a.CloseStep? {
      ShutdownKeepsCalls(c, a);
      ShutdownKeepsState(c, a);
    } else {
      ClosesKeepCalls(c, a);
      ClosesKeepState(c, a);
    }
    ClosesKeepWaits(c, a);
    hide CallsInv, StateInv, WaitsInv;
  }

  lemma ClosesKeepCalls(c: Control, a: Action)
    requires CallsInv(c) && StateInv(c) && ControlEnabled(c, a) && OfClose(a) && !a.CloseStep?
    ensures CallsInv(ControlDo(c, a))
  {
    var c' := ControlDo(c, a);
    assert a.CloseEnter? && c.state == New ==> c'.closer == Some(a.g) && c.closer == None;
  }

  lemma ShutdownKeepsCalls(c: Control, a: Action)
    requires CallsInv(c) && StateInv(c) && ControlEnabled(c, a) && a.CloseStep?
    ensures CallsInv(ControlDo(c, a))
  {
    ReturnsWhenClosed(c, a);
    hide StateInv;
    var c', next := ControlDo(c, a), NextShutdown(c.closes[a.g]).value;
    assert c.closer == Some(a.g) == c'.closer;
    assert c'.starts == c.starts && c'.closes == c.closes[a.g := next] && TheStage(c') == Stage(next) > 0;
    assert c.state == Closed ==> c'.state == Closed;
    hide NextShutdown, ControlDo;
  }

  lemma ReturnsWhenClosed(c: Control, a: Action)
    requires CallsInv(c) && StateInv(c) && ControlEnabled(c, a) && a.CloseStep?
    ensures NextShutdown(c.closes[a.g]).value == Returned ==> c.state == Closed
  {
    assert c.closer == Some(a.g);
    hide CallsInv;
  }

  lemma ClosesKeepState(c: Control, a: Action)
    requires CallsInv(c) && StateInv(c) && ControlEnabled(c, a) && OfClose(a) && !a.CloseStep?
    ensures StateInv(ControlDo(c, a))
  {
    assert TheStart(ControlDo(c, a)) == TheStart(c);
  }

  lemma ShutdownKeepsState(c: Control, a: Action)
    requires CallsInv(c) && StateInv(c) && ControlEnabled(c, a) && a.CloseStep?
    ensures StateInv(ControlDo(c, a))
  {
    var next := NextShutdown(c.closes[a.g]).value;
    assert c.closer == Some(a.g) && TheStage(ControlDo(c, a)) == Stage(next) == TheStage(c) + 1;
    assert TheStart(ControlDo(c, a)) == TheStart(c);
    hide TheStage, TheStart, CallsInv;
  }

  lemma ClosesKeepWaits(c: Control, a: Action)
    requires StateInv(c) && WaitsInv(c) && ControlEnabled(c, a) && OfClose(a)
    ensures WaitsInv(ControlDo(c, a))
  {
  }

  predicate OfAccept(a: Action) {
    a.Accept? || a.AcceptError? || a.AcceptRegister? || a.AcceptGiveBack? || a.AcceptSpawn? || a.AcceptClosed?
  }

  lemma AcceptKeepsCounts(n: Network, a: Action, running: bool)
    requires CountInv(n) && NetworkEnabled(n, a) && OfAccept(a)
    ensures CountInv(NetworkDo(n, a, running))
  {
    AcceptKeepsApart(n, a, running);
    AcceptKeepsNumbers(n, a, running);
    hide ApartInv, NumbersInv;
  }

  lemma AcceptKeepsApart(n: Network, a: Action, running: bool)
    requires ApartInv(n) && NetworkEnabled(n, a) && OfAccept(a)
    ensures ApartInv(NetworkDo(n, a, running))
  {
  }

  lemma AcceptKeepsNumbers(n: Network, a: Action, running: bool)
    requires ApartInv(n) && NumbersInv(n) && NetworkEnabled(n, a) && OfAccept(a)
    ensures NumbersInv(NetworkDo(n, a, running))
  {
  }

  // A handler moves on from one set to the next.
  lemma Moved(a: set<Conn>, b: set<Conn>, c: Conn)
    requires c in a && a !! b
    ensures |a - {c}| == |a| - 1 && |b + {c}| == |b| + 1
  {
  }

  lemma HandlerEndsKeepsCounts(n: Network, c: Conn)
    requires CountInv(n) && c in n.serving
    ensures CountInv(NetworkDo(n, HandlerEnds(c), false))
  {
    EndsKeepsApart(n, c);
    Moved(n.serving, n.dropping, c);
    Handed(n.serving, n.dropping, c);
    hide ApartInv;
  }

  lemma EndsKeepsApart(n: Network, c: Conn)
    requires ApartInv(n) && c in n.serving
    ensures ApartInv(NetworkDo(n, HandlerEnds(c), false))
  {
  }

  lemma Handed(a: set<Conn>, b: set<Conn>, c: Conn)
    requires c in a
    ensures (a - {c}) + (b + {c}) == a + b
  {
  }

  lemma Dropped(a: set<Conn>, b: set<Conn>, r: set<Conn>, c: Conn)
    requires c !in a && c !in r
    ensures a + b + r - {c} == a + (b - {c}) + r
  {
  }

  lemma HandlerUnregistersKeepsCounts(n: Network, c: Conn)
    requires CountInv(n) && c in n.dropping
    ensures CountInv(NetworkDo(n, HandlerUnregisters(c), false))
  {
    hide ApartInv, NumbersInv, RegisteredInv;
    UnregistersKeepsApart(n, c);
    UnregistersKeepsNumbers(n, c);
    UnregistersKeepsRegistered(n, c);
  }

  lemma UnregistersKeepsRegistered(n: Network, c: Conn)
    requires ApartInv(n) && RegisteredInv(n) && c in n.dropping
    ensures RegisteredInv(NetworkDo(n, HandlerUnregisters(c), false))
  {
    assert c !in n.serving && c !in Registering(n);
    hide ApartInv;
    Dropped(n.serving, n.dropping, Registering(n), c);
  }

  lemma UnregistersKeepsApart(n: Network, c: Conn)
    requires ApartInv(n) && c in n.dropping
    ensures ApartInv(NetworkDo(n, HandlerUnregisters(c), false))
  {
  }

  lemma UnregistersKeepsNumbers(n: Network, c: Conn)
    requires ApartInv(n) && NumbersInv(n) && c in n.dropping
    ensures NumbersInv(NetworkDo(n, HandlerUnregisters(c), false))
  {
    Moved(n.dropping, n.freeing, c);
    hide ApartInv;
  }

  lemma HandlerFreesKeepsCounts(n: Network, c: Conn)
    requires CountInv(n) && c in n.freeing && n.slots > 0
    ensures CountInv(NetworkDo(n, HandlerFrees(c), false))
  {
    Moved(n.freeing, n.leaving, c);
  }

  lemma HandlerLeavesKeepsCounts(n: Network, c: Conn)
    requires CountInv(n) && c in n.leaving && n.connectionWG > 0
    ensures CountInv(NetworkDo(n, HandlerLeaves(c), false))
  {
    Moved(n.leaving, {}, c);
  }

  // Handlers and the accept loop on the one side, calls of Start and Close on the other.
  lemma NetworkKeepsCounts(n: Network, a: Action, running: bool)
    requires CountInv(n) && NetworkEnabled(n, a) && (a.StartSpawn? ==> n.accept == NotSpawned)
    ensures CountInv(NetworkDo(n, a, running))
  {
    if OfAccept(a) {
      AcceptKeepsCounts(n, a, running);
    } else {
      match a
      case HandlerEnds(c) => HandlerEndsKeepsCounts(n, c);
      case HandlerUnregisters(c) => HandlerUnregistersKeepsCounts(n, c);
      case HandlerFrees(c) => HandlerFreesKeepsCounts(n, c);
      case HandlerLeaves(c) => HandlerLeavesKeepsCounts(n, c);
      case _ =>
    }
  }

  // What a step does to the two calls that count.
  ghost predicate PhaseStep(c: Control, a: Action, c': Control)
    requires ControlEnabled(c, a)
  {
    var pc, stage, pc', stage' := TheStart(c), TheStage(c), TheStart(c'), TheStage(c');
    match a
    case StartEnter(_) => stage' == stage && pc' == if c.state == New then Locking else pc
    case StartStep(g, ok) => stage' == stage && c.starts[g] == pc && pc' == NextStart(pc, ok).value
    case StartPublish(_) => stage' == stage && pc == Publishing && pc' == Spawning
    case StartSpawn(_) => stage' == stage && pc == Spawning && pc' == Signalling
    case StartSignal(_) => stage' == stage && pc == Signalling && pc' == Succeeded
    case StartCleanup(g) => stage' == stage && c.starts[g] == pc && pc' == NextCleanup(pc).value
    case StartAbort(_) => stage' == stage && pc == Aborting && pc' == Failed
    case CloseEnter(_) => pc' == pc && stage' == if c.state == New || c.state == Running then 1 else stage
    case CloseStep(g) => pc' == pc && stage == Stage(c.closes[g]) && stage' == stage + 1
    case _ => pc' == pc && stage' == stage
  }

  lemma StepsPhases(c: Control, a: Action)
    requires CallsInv(c) && StateInv(c) && ControlEnabled(c, a)
    ensures PhaseStep(c, a, ControlDo(c, a))
  {
    if OfStart(a) {
      StartPhases(c, a);
    } else if OfClose(a) {
      ClosePhases(c, a);
    }
    hide CallsInv, StateInv, TheStart, TheStage;
  }

  lemma StartPhases(c: Control, a: Action)
    requires CallsInv(c) && StateInv(c) && ControlEnabled(c, a) && OfStart(a)
    ensures PhaseStep(c, a, ControlDo(c, a))
  {
    assert TheStage(ControlDo(c, a)) == TheStage(c);
    hide TheStage;
  }

  lemma ClosesLeaveStarts(c: Control, a: Action)
    requires ControlEnabled(c, a) && OfClose(a)
    ensures TheStart(ControlDo(c, a)) == TheStart(c)
  {
    assert ControlDo(c, a).starts == c.starts && ControlDo(c, a).starter == c.starter by {
      hide Stage, NextShutdown, TheStart;
    }
  }

  lemma ClosePhases(c: Control, a: Action)
    requires CallsInv(c) && StateInv(c) && ControlEnabled(c, a) && OfClose(a)
    ensures PhaseStep(c, a, ControlDo(c, a))
  {
    ClosesLeaveStarts(c, a);
    hide TheStart;
    if a.CloseStep? {
      ShutdownPhases(c, a);
      hide ControlDo, TheStage, CallsInv, StateInv, NextShutdown;
    } else if a.CloseEnter? {
      hide Stage;
    } else {
      assert TheStage(ControlDo(c, a)) == TheStage(c);
      hide TheStage;
    }
  }

  lemma ShutdownPhases(c: Control, a: Action)
    requires CallsInv(c) && StateInv(c) && ControlEnabled(c, a) && a.CloseStep?
    ensures TheStage(c) == Stage(c.closes[a.g]) && TheStage(ControlDo(c, a)) == Stage(c.closes[a.g]) + 1
  {
    hide StateInv, WaitsInv;
    var next := NextShutdown(c.closes[a.g]).value;
    assert c.closer == Some(a.g) == ControlDo(c, a).closer;
    assert ControlDo(c, a).closes == c.closes[a.g := next];
  }

  lemma ResourcesStayHeld(s: Server, a: Action)
    requires ControlInv(s.ctl) && ControlEnabled(s.ctl, a) && s.res == Held(TheStart(s.ctl), TheStage(s.ctl))
    ensures var c := ControlDo(s.ctl, a); ResourcesDo(s, a) == Held(TheStart(c), TheStage(c))
  {
    StepsPhases(s.ctl, a);
    hide WaitsInv, CallsInv, TheStart, TheStage, ControlDo;
  }

  lemma AcceptInvKept(s: Server, a: Action)
    requires Inv(s) && Enabled(s, a)
    ensures var c := ControlDo(s.ctl, a); AcceptInv(TheStart(c), TheStage(c), Do(s, a).net)
  {
    StepsPhases(s.ctl, a);
    var pc, stage := TheStart(s.ctl), TheStage(s.ctl);
    assert s.ctl.state == Running ==> Published(pc) && stage == 0;
    if OfStart(a) || OfClose(a) {
      CallsKeepAccept(s, a);
    } else {
      assert ControlDo(s.ctl, a) == s.ctl;
      NetworkKeepsAccept(pc, stage, s.net, a, s.ctl.state == Running);
    }
  }

  lemma CallsKeepAccept(s: Server, a: Action)
    requires Enabled(s, a) && (OfStart(a) || OfClose(a)) && PhaseStep(s.ctl, a, ControlDo(s.ctl, a))
    requires AcceptInv(TheStart(s.ctl), TheStage(s.ctl), s.net) && StateInv(s.ctl)
    ensures var c := ControlDo(s.ctl, a); AcceptInv(TheStart(c), TheStage(c), Do(s, a).net)
  {
    assert s.ctl.state == New ==> TheStart(s.ctl) == Called && TheStage(s.ctl) == 0;
    hide TheStart, TheStage, ControlDo, ResourcesDo, StartAt, CloseAt;
  }

  lemma NetworkKeepsAccept(pc: StartPc, stage: nat, n: Network, a: Action, running: bool)
    requires AcceptInv(pc, stage, n) && CountInv(n) && NetworkEnabled(n, a) && !OfStart(a) && !OfClose(a)
    requires running ==> Published(pc) && stage == 0
    ensures AcceptInv(pc, stage, NetworkDo(n, a, running))
  {
    hide ApartInv, RegisteredInv, KnownConn;
  }

  // ---------- whole runs ----------

  lemma StepKeeps(s: Server, a: Action)
    requires Inv(s) && Enabled(s, a)
    ensures Inv(Do(s, a)) && Do(s, a).net.max == s.net.max
  {
    if OfStart(a) {
      StartsKeepControl(s.ctl, a);
    } else if OfClose(a) {
      ClosesKeepControl(s.ctl, a);
    } else {
      assert ControlDo(s.ctl, a) == s.ctl;
    }
    ResourcesStayHeld(s, a);
    assert a.StartSpawn? ==> s.net.accept == NotSpawned by {
      StepsPhases(s.ctl, a);
    }
    NetworkKeepsCounts(s.net, a, s.ctl.state == Running);
    AcceptInvKept(s, a);
    hide ControlInv, CountInv, AcceptInv, Held, ControlDo, ResourcesDo, TheStart, TheStage;
  }

  // A run: each action is enabled where the ones before it lead.
  ghost predicate Runs(s: Server, actions: seq<Action>)
    decreases |actions|
  {
    actions == [] || (Enabled(s, actions[0]) && Runs(Do(s, actions[0]), actions[1..]))
  }

  ghost function After(s: Server, actions: seq<Action>): Server
    requires Runs(s, actions)
    decreases |actions|
  {
    if actions == [] then s else After(Do(s, actions[0]), actions[1..])
  }

  lemma {:induction false} RunsKeep(s: Server, actions: seq<Action>)
    requires Inv(s) && Runs(s, actions)
    ensures Inv(After(s, actions)) && After(s, actions).net.max == s.net.max
    decreases |actions|
  {
    if actions != [] {
      StepKeeps(s, actions[0]);
      RunsKeep(Do(s, actions[0]), actions[1..]);
    }
  }

  // ---------- what a run can never show ----------

  // At most one Start gets past its first check, so at most one succeeds.
  lemma OneStart(max: nat, actions: seq<Action>, g: Goroutine, h: Goroutine)
    requires Runs(Init(max), actions)
    ensures var c := After(Init(max), actions).ctl;
            StartAt(c, g, Succeeded) && StartAt(c, h, Succeeded) ==> g == h
  {
    InitHolds(max);
    RunsKeep(Init(max), actions);
  }

  // A handler that still serves, or has only left its serving loop, has the store, the socket and the lock
  // behind it; there are no more of them than slots in use, and no more of those than the server allows.
  lemma HandlersHaveTheStore(max: nat, actions: seq<Action>)
    requires Runs(Init(max), actions)
    ensures var s := After(Init(max), actions);
            s.net.serving + s.net.dropping + s.net.freeing + s.net.leaving != {} ==> s.res.storeOpen && s.res.socketBound && s.res.lockHeld
    ensures var n := After(Init(max), actions).net; |n.connections| <= n.slots <= max
  {
    InitHolds(max);
    RunsKeep(Init(max), actions);
    CountsBound(After(Init(max), actions));
  }

  lemma CountsBound(s: Server)
    requires Inv(s)
    ensures s.net.serving + s.net.dropping + s.net.freeing + s.net.leaving != {} ==> s.res.storeOpen && s.res.socketBound && s.res.lockHeld
    ensures |s.net.connections| <= s.net.slots
  {
    var n := s.net;
    assert |n.serving + n.dropping + Registering(n)| <= |n.serving| + |n.dropping| + |Registering(n)|;
    assert n.serving + n.dropping + n.freeing + n.leaving != {} ==> n.connectionWG > 0;
  }

  // The lock outlives the store and the socket.
  lemma LockOutlives(max: nat, actions: seq<Action>)
    requires Runs(Init(max), actions)
    ensures var r := After(Init(max), actions).res; r.storeOpen || r.listenerOpen || r.socketBound ==> r.lockHeld
  {
    InitHolds(max);
    RunsKeep(Init(max), actions);
    hide AcceptInv, CountInv, CallsInv, StateInv, WaitsInv;
  }

  // A closed server stays closed.
  lemma {:induction false} ClosedStays(s: Server, actions: seq<Action>)
    requires Inv(s) && s.ctl.state == Closed && Runs(s, actions)
    ensures After(s, actions).ctl.state == Closed
    decreases |actions|
  {
    if actions != [] {
      var a := actions[0];
      StepKeeps(s, a);
      assert ControlDo(s.ctl, a).state == Closed by {
        assert StateInv(s.ctl) && CallsInv(s.ctl);
      }
      ClosedStays(Do(s, a), actions[1..]);
    }
  }

  // Once some Close has returned the server is closed, nothing is held, and no handler or slot is left.
  lemma ReturnedIsClosed(max: nat, actions: seq<Action>, g: Goroutine)
    requires Runs(Init(max), actions) && CloseAt(After(Init(max), actions).ctl, g, Returned)
    ensures var s := After(Init(max), actions);
            && s.ctl.state == Closed && s.res == CLOSED_RESOURCES && s.net.slots == 0
            && s.net.connections == {} && s.net.connectionWG == 0 && s.net.acceptWG == 0
  {
    InitHolds(max);
    RunsKeep(Init(max), actions);
    ClosedIsQuiet(After(Init(max), actions));
  }

  lemma ClosedIsQuiet(s: Server)
    requires Inv(s) && s.ctl.state == Closed
    ensures s.res == CLOSED_RESOURCES && s.net.slots == 0 && s.net.connections == {} && s.net.connectionWG == 0 && s.net.acceptWG == 0
  {
    var pc, stage, n := TheStart(s.ctl), TheStage(s.ctl), s.net;
    assert stage >= 9 || pc == Failed;
    assert n.connectionWG == 0;
    assert n.serving == {} && n.dropping == {} && n.freeing == {} && |Registering(n)| == 0;
    hide CallsInv, WaitsInv;
  }

  // The retry loop of Close waits for a start at most once, so it goes round at most twice.
  lemma ClosesRetryOnce(max: nat, actions: seq<Action>, g: Goroutine)
    requires Runs(Init(max), actions) && g in After(Init(max), actions).ctl.closes
    ensures var pc := After(Init(max), actions).ctl.closes[g];
            (pc.Entering? ==> pc.waits <= 1) && (pc.AwaitingStart? ==> pc.waits == 0)
  {
    InitHolds(max);
    RunsKeep(Init(max), actions);
    hide AcceptInv, CountInv, CallsInv, StateInv, Held;
  }

  // Giving back a slot or leaving a wait group never blocks and never goes below zero; a channel is closed
  // once.
  lemma NeverStuck(max: nat, actions: seq<Action>)
    requires Runs(Init(max), actions)
    ensures var s := After(Init(max), actions);
            && (s.net.accept.GivingBack? ==> NetworkEnabled(s.net, AcceptGiveBack))
            && (forall c :: c in s.net.freeing ==> NetworkEnabled(s.net, HandlerFrees(c)))
            && (forall c :: c in s.net.leaving ==> NetworkEnabled(s.net, HandlerLeaves(c)))
    ensures var c := After(Init(max), actions).ctl;
            && (forall g :: StartAt(c, g, Signalling) || StartAt(c, g, Aborting) ==> c.startDone == Open)
            && (forall g :: CloseAt(c, g, SignalClosed) ==> c.closeDone == Open)
  {
    InitHolds(max);
    RunsKeep(Init(max), actions);
    var s := After(Init(max), actions);
    NotStuck(TheStart(s.ctl), TheStage(s.ctl), s.net);
    SignalsOpen(s.ctl);
    hide ControlInv, AcceptInv, CountInv, Held, TheStart, TheStage;
  }

  lemma NotStuck(pc: StartPc, stage: nat, n: Network)
    requires AcceptInv(pc, stage, n) && CountInv(n)
    ensures n.accept.GivingBack? ==> NetworkEnabled(n, AcceptGiveBack)
    ensures forall c :: c in n.freeing ==> NetworkEnabled(n, HandlerFrees(c))
    ensures forall c :: c in n.leaving ==> NetworkEnabled(n, HandlerLeaves(c))
  {
    hide ApartInv, RegisteredInv, KnownConn;
  }

  lemma SignalsOpen(c: Control)
    requires ControlInv(c)
    ensures forall g :: StartAt(c, g, Signalling) || StartAt(c, g, Aborting) ==> c.startDone == Open
    ensures forall g :: CloseAt(c, g, SignalClosed) ==> c.closeDone == Open
  {
  }

  // ---------- no deadlock ----------

  // What the daemon does by itself: no new call and no new connection, and handlers leave when cut off.
  predicate Internal(a: Action) { !a.CallStart? && !a.CallClose? && !a.Accept? && !a.AcceptError? }

  predicate Unfinished(c: Control, g: Goroutine) {
    || (g in c.starts && c.starts[g] !in {Succeeded, Failed, Refused})
    || (g in c.closes && c.closes[g] != Returned)
  }

  // While a call of Start or Close has not ended, some step of the daemon's own is possible.
  lemma NoDeadlock(s: Server, g: Goroutine) returns (a: Action)
    requires Inv(s) && Unfinished(s.ctl, g)
    ensures Internal(a) && Enabled(s, a)
  {
    if g in s.ctl.starts && s.ctl.starts[g] !in {Succeeded, Failed, Refused} {
      a := StartCanStep(s, g);
    } else {
      a := CloseCanStep(s, g);
    }
  }

  lemma StartCanStep(s: Server, g: Goroutine) returns (a: Action)
    requires g in s.ctl.starts && s.ctl.starts[g] !in {Succeeded, Failed, Refused}
    ensures Internal(a) && Enabled(s, a)
  {
    match s.ctl.starts[g]
    case Called => a := StartEnter(g);
    case Publishing => a := StartPublish(g);
    case Spawning => a := StartSpawn(g);
    case Signalling => a := StartSignal(g);
    case Aborting => a := StartAbort(g);
    case Unlistening | ClosingStore | Unlocking => a := StartCleanup(g);
    case _ => a := StartStep(g, true);
  }

  lemma CloseCanStep(s: Server, g: Goroutine) returns (a: Action)
    requires Inv(s) && g in s.ctl.closes && s.ctl.closes[g] != Returned
    ensures Internal(a) && Enabled(s, a)
  {
    match s.ctl.closes[g]
    case Entering(_) => a := CloseEnter(g);
    case AwaitingStart(_) =>
      if s.ctl.startDone == Done {
        a := CloseRetry(g);
      } else {
        a := StartCanStep(s, s.ctl.starter.value);
      }
    case AwaitingClose =>
      if s.ctl.closeDone == Done {
        a := CloseWaited(g);
      } else {
        a := ShutdownCanStep(s, s.ctl.closer.value);
      }
    case _ => a := ShutdownCanStep(s, g);
  }

  lemma ShutdownCanStep(s: Server, g: Goroutine) returns (a: Action)
    requires Inv(s) && g in s.ctl.closes && NextShutdown(s.ctl.closes[g]).Some?
    ensures Internal(a) && Enabled(s, a)
  {
    a := CloseStep(g);
    assert TheStage(s.ctl) == Stage(s.ctl.closes[g]) && StateInv(s.ctl);
    hide CallsInv, WaitsInv;
    if s.ctl.closes[g] == AwaitingAccept && s.net.acceptWG > 0 {
      a := AcceptCanStep(s);
    } else if s.ctl.closes[g] == AwaitingHandlers && s.net.connectionWG > 0 {
      a := HandlerCanStep(s);
    }
  }

  lemma AcceptCanStep(s: Server) returns (a: Action)
    requires AcceptInv(TheStart(s.ctl), TheStage(s.ctl), s.net) && CountInv(s.net) && s.net.acceptWG > 0
    requires s.res == Held(TheStart(s.ctl), TheStage(s.ctl)) && StateInv(s.ctl) && TheStage(s.ctl) == 2
    ensures Internal(a) && Enabled(s, a)
  {
    match s.net.accept
    case Accepting => a := AcceptClosed;
    case HasSlot(_) => a := AcceptRegister;
    case GivingBack(_) => a := AcceptGiveBack;
    case Registered(_) => a := AcceptSpawn;
    case NotSpawned =>
      a := StartSpawn(s.ctl.starter.value);
    case Exited => assert false;
  }

  lemma HandlerCanStep(s: Server) returns (a: Action)
    requires CountInv(s.net) && s.net.connectionWG > 0
    ensures Internal(a) && Enabled(s, a)
  {
    var n := s.net;
    if c :| c in n.serving {
      a := HandlerEnds(c);
    } else if c :| c in n.dropping {
      a := HandlerUnregisters(c);
    } else if c :| c in n.freeing {
      a := HandlerFrees(c);
    } else if c :| c in n.leaving {
      a := HandlerLeaves(c);
    } else {
      a := AcceptSpawn;
    }
  }

  // ---------- every call ends ----------

  // How many steps a call, the accept loop or a handler still has, at most.
  function StartLeft(pc: StartPc): nat {
    match pc
    case Called => 9
    case Locking => 8
    case Opening => 7
    case Listening => 6
    case Publishing => 5
    case Unlistening => 4
    case ClosingStore => 3
    case Unlocking => 2
    case Aborting => 1
    case Spawning => 3
    case Signalling => 1
    case _ => 0
  }

  function CloseLeft(pc: ClosePc): nat {
    match pc
    case Entering(waits) => if waits == 0 then 13 else 11
    case AwaitingStart(_) => 12
    case AwaitingClose => 1
    case _ => 10 - Stage(pc)
  }

  function AcceptLeft(pc: AcceptPc): nat {
    match pc
    case HasSlot(_) => 7
    case Registered(_) => 6
    case Accepting => 1
    case GivingBack(_) => 1
    case _ => 0
  }

  function HandlersLeft(n: Network): nat { 4 * |n.serving| + 3 * |n.dropping| + 2 * |n.freeing| + |n.leaving| }

  ghost function Total(left: map<Goroutine, nat>): nat
    decreases |left|
  {
    if left == map[] then 0
    else
      var g :| g in left;
      left[g] + Total(left - {g})
  }

  lemma {:induction false} TotalPick(left: map<Goroutine, nat>, g: Goroutine)
    requires g in left
    ensures Total(left) == left[g] + Total(left - {g})
    decreases |left|
  {
    var h :| h in left && Total(left) == left[h] + Total(left - {h});
    if h != g {
      TotalPick(left - {h}, g);
      TotalPick(left - {g}, h);
      assert left - {h} - {g} == left - {g} - {h};
    }
  }

  lemma TotalUpdate(left: map<Goroutine, nat>, g: Goroutine, v: nat)
    requires g in left
    ensures Total(left[g := v]) == Total(left) - left[g] + v
  {
    TotalPick(left, g);
    TotalPick(left[g := v], g);
    assert left[g := v] - {g} == left - {g};
  }

  function StartsLeft(starts: map<Goroutine, StartPc>): map<Goroutine, nat> { map g | g in starts :: StartLeft(starts[g]) }

  function ClosesLeft(closes: map<Goroutine, ClosePc>): map<Goroutine, nat> { map g | g in closes :: CloseLeft(closes[g]) }

  ghost function Left(s: Server): nat {
    Total(StartsLeft(s.ctl.starts)) + Total(ClosesLeft(s.ctl.closes)) + AcceptLeft(s.net.accept) + HandlersLeft(s.net)
  }

  lemma StartMoves(starts: map<Goroutine, StartPc>, g: Goroutine, pc: StartPc)
    requires g in starts
    ensures Total(StartsLeft(starts[g := pc])) == Total(StartsLeft(starts)) - StartLeft(starts[g]) + StartLeft(pc)
  {
    assert StartsLeft(starts[g := pc]) == StartsLeft(starts)[g := StartLeft(pc)];
    TotalUpdate(StartsLeft(starts), g, StartLeft(pc));
  }

  lemma CloseMoves(closes: map<Goroutine, ClosePc>, g: Goroutine, pc: ClosePc)
    requires g in closes
    ensures Total(ClosesLeft(closes[g := pc])) == Total(ClosesLeft(closes)) - CloseLeft(closes[g]) + CloseLeft(pc)
  {
    assert ClosesLeft(closes[g := pc]) == ClosesLeft(closes)[g := CloseLeft(pc)];
    TotalUpdate(ClosesLeft(closes), g, CloseLeft(pc));
  }

  lemma StartNearer(c: Control, a: Action)
    requires ControlEnabled(c, a) && OfStart(a) && Internal(a)
    ensures var c' := ControlDo(c, a);
            && a.g in c.starts && a.g in c'.starts && c'.starts == c.starts[a.g := c'.starts[a.g]] && c'.closes == c.closes
            && StartLeft(c'.starts[a.g]) + (if a.StartSpawn? then 2 else 1) <= StartLeft(c.starts[a.g])
  {
  }

  lemma CloseNearer(c: Control, a: Action)
    requires ControlEnabled(c, a) && OfClose(a) && Internal(a)
    requires a.CloseEnter? && c.closes[a.g].waits > 0 ==> c.state != Starting
    ensures var c' := ControlDo(c, a);
            && a.g in c.closes && a.g in c'.closes && c'.closes == c.closes[a.g := c'.closes[a.g]] && c'.starts == c.starts
            && CloseLeft(c'.closes[a.g]) < CloseLeft(c.closes[a.g])
  {
    if a.CloseStep? {
      hide CloseAt;
      assert Stage(NextShutdown(c.closes[a.g]).value) == Stage(c.closes[a.g]) + 1;
      hide NextShutdown;
    }
  }

  lemma CallsLeaveHandlers(n: Network, a: Action, running: bool)
    requires NetworkEnabled(n, a) && (OfStart(a) || OfClose(a))
    ensures HandlersLeft(NetworkDo(n, a, running)) == HandlersLeft(n)
    ensures AcceptLeft(NetworkDo(n, a, running).accept) <= AcceptLeft(n.accept) + if a.StartSpawn? then 1 else 0
  {
  }

  lemma StartsDescend(s: Server, a: Action)
    requires Enabled(s, a) && Internal(a) && OfStart(a)
    ensures Left(Do(s, a)) < Left(s)
  {
    StartNearer(s.ctl, a);
    CallsLeaveHandlers(s.net, a, s.ctl.state == Running);
    hide ControlEnabled, NetworkEnabled, ControlDo, NetworkDo, ResourcesDo, StartLeft, AcceptLeft, HandlersLeft, StartsLeft, ClosesLeft, Total;
    StartMoves(s.ctl.starts, a.g, ControlDo(s.ctl, a).starts[a.g]);
  }

  lemma ClosesDescend(s: Server, a: Action)
    requires ControlInv(s.ctl) && Enabled(s, a) && Internal(a) && OfClose(a)
    ensures Left(Do(s, a)) < Left(s)
  {
    // A call that has waited for the start finds it done.
    assert a.CloseEnter? && s.ctl.closes[a.g].waits > 0 ==> s.ctl.state != Starting by {
      assert a.CloseEnter? ==> WaitsWell(s.ctl, s.ctl.closes[a.g]);
      hide CallsInv, WaitsInv;
    }
    hide ControlInv;
    CloseNearer(s.ctl, a);
    CallsLeaveHandlers(s.net, a, s.ctl.state == Running);
    hide ControlEnabled, NetworkEnabled, ControlDo, NetworkDo, ResourcesDo, CloseLeft, AcceptLeft, HandlersLeft, StartsLeft, ClosesLeft, Total;
    CloseMoves(s.ctl.closes, a.g, ControlDo(s.ctl, a).closes[a.g]);
  }

  lemma AcceptNearer(n: Network, a: Action, running: bool)
    requires ApartInv(n) && NetworkEnabled(n, a) && Internal(a) && OfAccept(a)
    ensures var n' := NetworkDo(n, a, running);
            AcceptLeft(n'.accept) + HandlersLeft(n') < AcceptLeft(n.accept) + HandlersLeft(n)
  {
  }

  lemma HandlerNearer(n: Network, a: Action, running: bool)
    requires ApartInv(n) && NetworkEnabled(n, a) && Internal(a) && !OfStart(a) && !OfClose(a) && !OfAccept(a)
    ensures var n' := NetworkDo(n, a, running); n'.accept == n.accept && HandlersLeft(n') < HandlersLeft(n)
  {
    match a
    case HandlerEnds(c) => Moved(n.serving, n.dropping, c);
    case HandlerUnregisters(c) => Moved(n.dropping, n.freeing, c);
    case HandlerFrees(c) => Moved(n.freeing, n.leaving, c);
    case HandlerLeaves(c) => Moved(n.leaving, {}, c);
    case _ => assert false;
  }

  lemma NetworkDescends(s: Server, a: Action)
    requires ApartInv(s.net) && Enabled(s, a) && Internal(a) && !OfStart(a) && !OfClose(a)
    ensures Left(Do(s, a)) < Left(s)
  {
    assert ControlDo(s.ctl, a) == s.ctl;
    if OfAccept(a) {
      AcceptNearer(s.net, a, s.ctl.state == Running);
    } else {
      HandlerNearer(s.net, a, s.ctl.state == Running);
    }
    hide ApartInv, ControlEnabled, NetworkEnabled, ControlDo, NetworkDo, ResourcesDo, AcceptLeft, HandlersLeft, StartsLeft, ClosesLeft, Total;
  }

  // Each step of the daemon's own brings it nearer the end of all calls.
  lemma InternalDescends(s: Server, a: Action)
    requires Inv(s) && Enabled(s, a) && Internal(a)
    ensures Left(Do(s, a)) < Left(s)
  {
    if OfStart(a) {
      StartsDescend(s, a);
    } else if OfClose(a) {
      ClosesDescend(s, a);
    } else {
      NetworkDescends(s, a);
    }
  }

  // So without new calls and connections it takes no more than that many.
  lemma {:induction false} EndsInTime(s: Server, actions: seq<Action>)
    requires Inv(s) && Runs(s, actions) && forall a :: a in actions ==> Internal(a)
    ensures |actions| + Left(After(s, actions)) <= Left(s)
    decreases |actions|
  {
    if actions != [] {
      StepKeeps(s, actions[0]);
      InternalDescends(s, actions[0]);
      EndsInTime(Do(s, actions[0]), actions[1..]);
      hide Inv, Left, Do, Enabled;
    }
  }

  // And wherever it is, that many steps can bring every call to its end.
  lemma {:induction false} AllCallsEnd(s: Server) returns (actions: seq<Action>)
    requires Inv(s)
    ensures Runs(s, actions) && (forall a :: a in actions ==> Internal(a)) && |actions| <= Left(s)
    ensures forall g :: !Unfinished(After(s, actions).ctl, g)
    decreases Left(s)
  {
    hide Inv, Left, Do, Enabled;
    if g :| Unfinished(s.ctl, g) {
      var a := NoDeadlock(s, g);
      StepKeeps(s, a);
      InternalDescends(s, a);
      var rest := AllCallsEnd(Do(s, a));
      actions := [a] + rest;
      assert actions[1..] == rest;
    } else {
      actions := [];
    }
  }
}
