/** Daemon processes that share a runtime root (internal/daemon/runtime_lock.go, and their use in server.go):
    the advisory lock, the one store, and the socket's name, with the quarantine a stale socket goes through
    before it is unlinked. Any process may crash at any step, and another actor may put a node at the free
    name at any time. */
module SocketLock {
  import opened Bytes

  type Proc = nat
  type Token = nat
  type Inode = nat

  datatype Name = Socket | Quarantine(token: Token)
  datatype Node = Node(inode: Inode, isSocket: bool)

  // What follows a sweep of the socket's name: opening the store, closing it after a failed start, or
  // releasing the lock at the end of a shutdown.
  datatype Then = ThenOpen | ThenShut | ThenRelease

  // A sweep draws a name until one is free (it has found `taken` names taken), moves the node there, looks at
  // it, and unlinks it or puts it back.
  datatype Phase = Choosing(taken: nat) | Moving(token: Token) | Inspecting(token: Token) | Removing(token: Token) | Restoring(token: Token)

  datatype Pc =
    | Outside | Sweeping(phase: Phase, expected: Option<Inode>, next: Then) | OpeningStore | Listening | Identifying
    | Serving(identity: Inode) | ShuttingStore | Releasing | Gone

  // A process, and the socket it bound, if any.
  datatype Process = Process(pc: Pc, storeOpen: bool, bound: Option<Inode>)

  datatype Removal = Removal(remover: Proc, expected: Option<Inode>, wasSocket: bool)

  // The last three fields remember: the nodes made, who bound a socket, who removed a node.
  datatype System = System(
    lock: Option<Proc>, dir: map<Name, Node>, procs: map<Proc, Process>,
    made: set<Inode>, binder: map<Inode, Proc>, removed: map<Inode, Removal>)

  datatype Action =
    | Arrive(p: Proc) | Acquire(p: Proc) | Choose(p: Proc, token: Token) | Move(p: Proc) | Inspect(p: Proc, ok: bool)
    | Remove(p: Proc, ok: bool) | Restore(p: Proc) | GiveUpSweep(p: Proc) | OpenStore(p: Proc, ok: bool)
    | Listen(p: Proc, inode: Inode) | ListenFails(p: Proc) | Identify(p: Proc, ok: bool) | Abort(p: Proc) | Close(p: Proc)
    | ShutStore(p: Proc) | Release(p: Proc) | Crash(p: Proc) | Intrude(inode: Inode, isSocket: bool)

  // The fourth name found taken is the last one tried.
  const LAST_DRAW := 3

  const START := System(None, map[], map[], {}, map[], map[])

  function Goto(s: System, p: Proc, pc: Pc): System
    requires p in s.procs
  {
    s.(procs := s.procs[p := s.procs[p].(pc := pc)])
  }

  function SetStore(s: System, p: Proc, open: bool, pc: Pc): System
    requires p in s.procs
  {
    s.(procs := s.procs[p := s.procs[p].(storeOpen := open, pc := pc)])
  }

  // A start gives up on a failed sweep; a shutdown and a failed start go on.
  function AfterSweep(next: Then, ok: bool): Pc {
    match next
    case ThenOpen => if ok then OpeningStore else Releasing
    case ThenShut => ShuttingStore
    case ThenRelease => Releasing
  }

  // A socket, and the expected one if there is an expectation.
  predicate Matches(node: Node, expected: Option<Inode>) {
    node.isSocket && (expected.None? || node.inode == expected.value)
  }

  predicate Enabled(s: System, a: Action) {
    if a.Intrude? then a.inode !in s.made && Socket !in s.dir
    else if a.Arrive? then a.p !in s.procs
    else
      && a.p in s.procs
      && var pc := s.procs[a.p].pc;
         match a
         case Acquire(_) => pc == Outside
         case Choose(_, token) => pc.Sweeping? && pc.phase.Choosing?
         case Move(_) => pc.Sweeping? && pc.phase.Moving?
         case Inspect(_, _) => pc.Sweeping? && pc.phase.Inspecting? && Quarantine(pc.phase.token) in s.dir
         case Remove(_, _) => pc.Sweeping? && pc.phase.Removing? && Quarantine(pc.phase.token) in s.dir
         case Restore(_) => pc.Sweeping? && pc.phase.Restoring? && Quarantine(pc.phase.token) in s.dir
         case GiveUpSweep(_) => pc.Sweeping? && (pc.phase.Choosing? || pc.phase.Moving?)
         case OpenStore(_, _) => pc == OpeningStore
         case Listen(_, inode) => pc == Listening && inode !in s.made && Socket !in s.dir
         case ListenFails(_) => pc == Listening
         case Identify(_, ok) => pc == Identifying && (ok ==> Socket in s.dir && s.dir[Socket].isSocket)
         case Abort(_) => pc.Serving?
         case Close(_) => pc.Serving?
         case ShutStore(_) => pc == ShuttingStore
         case Release(_) => pc == Releasing
         case Crash(_) => pc != Gone
         case _ => false
  }

  function Do(s: System, a: Action): System
    requires Enabled(s, a)
  {
    if a.Intrude? then s.(dir := s.dir[Socket := Node(a.inode, a.isSocket)], made := s.made + {a.inode})
    else if a.Arrive? then s.(procs := s.procs[a.p := Process(Outside, false, None)])
    else
      var pc := s.procs[a.p].pc;
      match a
      case Acquire(p) => if s.lock.Some? then Goto(s, p, Gone) else Goto(s.(lock := Some(p)), p, Sweeping(Choosing(0), None, ThenOpen))
      case Choose(p, token) =>
        if Quarantine(token) !in s.dir then Goto(s, p, pc.(phase := Moving(token)))
        else if pc.phase.taken < LAST_DRAW then Goto(s, p, pc.(phase := Choosing(pc.phase.taken + 1)))
        else Goto(s, p, AfterSweep(pc.next, false))
      case Move(p) =>
        if Socket !in s.dir then Goto(s, p, AfterSweep(pc.next, true))
        else Goto(s.(dir := (s.dir - {Socket})[Quarantine(pc.phase.token) := s.dir[Socket]]), p, pc.(phase := Inspecting(pc.phase.token)))
      case Inspect(p, ok) =>
        var good := ok && Matches(s.dir[Quarantine(pc.phase.token)], pc.expected);
        Goto(s, p, pc.(phase := if good then Removing(pc.phase.token) else Restoring(pc.phase.token)))
      case Remove(p, ok) =>
        if !ok then Goto(s, p, AfterSweep(pc.next, false))
        else
          var node := s.dir[Quarantine(pc.phase.token)];
          Goto(s.(dir := s.dir - {Quarantine(pc.phase.token)}, removed := s.removed[node.inode := Removal(p, pc.expected, node.isSocket)]),
               p, AfterSweep(pc.next, true))
      case Restore(p) =>
        // The rename refuses to replace: a node that took the name meanwhile stays, and so does this one.
        var quarantined := Quarantine(pc.phase.token);
        var dir := if Socket in s.dir then s.dir else (s.dir - {quarantined})[Socket := s.dir[quarantined]];
        Goto(s.(dir := dir), p, AfterSweep(pc.next, false))
      case GiveUpSweep(p) => Goto(s, p, AfterSweep(pc.next, false))
      case OpenStore(p, ok) => if ok then SetStore(s, p, true, Listening) else Goto(s, p, Releasing)
      case Listen(p, inode) =>
        s.(dir := s.dir[Socket := Node(inode, true)], made := s.made + {inode}, binder := s.binder[inode := p],
           procs := s.procs[p := s.procs[p].(bound := Some(inode), pc := Identifying)])
      case ListenFails(p) => Goto(s, p, ShuttingStore)
      case Identify(p, ok) => Goto(s, p, if ok then Serving(s.dir[Socket].inode) else Sweeping(Choosing(0), None, ThenShut))
      case Abort(p) => Goto(s, p, Sweeping(Choosing(0), Some(pc.identity), ThenShut))
      case Close(p) => SetStore(s, p, false, Sweeping(Choosing(0), Some(pc.identity), ThenRelease))
      case ShutStore(p) => SetStore(s, p, false, Releasing)
      case Release(p) => Goto(s.(lock := None), p, Gone)
      case Crash(p) => SetStore(if s.lock == Some(p) then s.(lock := None) else s, p, false, Gone)
      case _ => s
  }

  // ---------- the invariant ----------

  // The socket a process bound is where the process believes it to be.
  predicate BoundAt(s: System, bound: Option<Inode>, name: Name) {
    bound.Some? ==> name in s.dir && s.dir[name] == Node(bound.value, true)
  }

  predicate PhaseInv(s: System, bound: Option<Inode>, phase: Phase, expected: Option<Inode>) {
    match phase
    case Choosing(_) => BoundAt(s, bound, Socket)
    case Moving(t) => BoundAt(s, bound, Socket) && Quarantine(t) !in s.dir
    case Inspecting(t) => Quarantine(t) in s.dir && BoundAt(s, bound, Quarantine(t))
    case Removing(t) => Quarantine(t) in s.dir && BoundAt(s, bound, Quarantine(t)) && Matches(s.dir[Quarantine(t)], expected)
    case Restoring(t) => Quarantine(t) in s.dir && BoundAt(s, bound, Quarantine(t))
  }

  predicate ProcInv(s: System, p: Proc, proc: Process) {
    && (proc.pc != Outside && proc.pc != Gone <==> s.lock == Some(p))
    && match proc.pc
       case Outside => !proc.storeOpen && proc.bound.None?
       case Sweeping(phase, expected, next) =>
         && PhaseInv(s, proc.bound, phase, expected)
         && (expected.Some? ==> expected == proc.bound)
         && proc.storeOpen == next.ThenShut?
         && (next.ThenOpen? ==> proc.bound.None?)
         && (next.ThenRelease? ==> expected.Some?)
       case OpeningStore => !proc.storeOpen && proc.bound.None?
       case Listening => proc.storeOpen && proc.bound.None?
       case Identifying => proc.storeOpen && proc.bound.Some? && BoundAt(s, proc.bound, Socket)
       case Serving(identity) => proc.storeOpen && proc.bound == Some(identity) && BoundAt(s, proc.bound, Socket)
       case ShuttingStore => proc.storeOpen
       case Releasing => !proc.storeOpen
       case Gone => !proc.storeOpen
  }

  function Inodes(dir: map<Name, Node>): set<Inode> { set n | n in dir :: dir[n].inode }

  // Every node made is under exactly one name, or was removed.
  ghost predicate NodesInv(s: System) {
    && s.made == Inodes(s.dir) + s.removed.Keys
    && Inodes(s.dir) !! s.removed.Keys
    && (forall n, m :: n in s.dir && m in s.dir && n != m ==> s.dir[n].inode != s.dir[m].inode)
  }

  ghost predicate BindersInv(s: System) {
    forall i :: i in s.binder ==> i in s.made && s.binder[i] in s.procs && s.procs[s.binder[i]].bound == Some(i)
  }

  // Only sockets are removed, only the expected one if there was an expectation, and then only by the process
  // that bound it; and a socket some process bound is removed only by that process, or after its end.
  predicate RemovalOk(s: System, i: Inode, r: Removal) {
    && r.wasSocket
    && r.remover in s.procs
    && (r.expected.Some? ==> r.expected == Some(i) == s.procs[r.remover].bound)
    && (i in s.binder ==> s.binder[i] == r.remover || (s.binder[i] in s.procs && s.procs[s.binder[i]].pc == Gone))
  }

  ghost predicate RemovalsInv(s: System) { forall i :: i in s.removed ==> RemovalOk(s, i, s.removed[i]) }

  ghost predicate ProcsInv(s: System) { forall p :: p in s.procs ==> ProcInv(s, p, s.procs[p]) }

  ghost predicate Inv(s: System) {
    && ProcsInv(s) && NodesInv(s) && BindersInv(s) && RemovalsInv(s)
    && (s.lock.Some? ==> s.lock.value in s.procs)
  }

  lemma StartHolds()
    ensures Inv(START)
  {
  }

  // ---------- every step keeps it ----------

  lemma InodesPut(dir: map<Name, Node>, name: Name, node: Node)
    requires name !in dir
    ensures Inodes(dir[name := node]) == Inodes(dir) + {node.inode}
  {
    var dir' := dir[name := node];
    forall i ensures i in Inodes(dir') <==> i in Inodes(dir) + {node.inode} {
      if i in Inodes(dir) {
        var n :| n in dir && dir[n].inode == i;
        assert n in dir' && dir'[n].inode == i;
      }
      assert name in dir';
    }
  }

  lemma InodesDrop(dir: map<Name, Node>, name: Name)
    requires name in dir
    requires forall n :: n in dir && n != name ==> dir[n].inode != dir[name].inode
    ensures Inodes(dir - {name}) == Inodes(dir) - {dir[name].inode}
  {
    var dir' := dir - {name};
    forall i ensures i in Inodes(dir') <==> i in Inodes(dir) - {dir[name].inode} {
      if i in Inodes(dir) && i != dir[name].inode {
        var n :| n in dir && dir[n].inode == i;
        assert n in dir' && dir'[n].inode == i;
      }
    }
  }

  // What a process leaves as it is.
  ghost predicate Frame(s: System, a: Action, s': System)
    requires !a.Intrude? && !a.Arrive? && a.p in s.procs
  {
    && (exists proc :: s'.procs == s.procs[a.p := proc] && (a.Listen? || proc.bound == s.procs[a.p].bound))
    && s.procs[a.p].pc != Gone
    && (a.Listen? || (s'.binder == s.binder && s.made == s'.made))
    && (a.Remove? || s'.removed == s.removed)
    && (a.Listen? || a.Move? || a.Remove? || a.Restore? || s'.dir == s.dir)
  }

  lemma StepFrames(s: System, a: Action)
    requires Enabled(s, a) && !a.Intrude? && !a.Arrive?
    ensures Frame(s, a, Do(s, a))
  {
    var s' := Do(s, a);
    assert s'.procs == s.procs[a.p := s'.procs[a.p]];
  }

  lemma StepKeepsNodes(s: System, a: Action)
    requires ProcsInv(s) && NodesInv(s) && Enabled(s, a)
    ensures NodesInv(Do(s, a))
  {
    if a.Move? || a.Remove? || a.Restore? {
      SweepKeepsNodes(s, a);
    } else {
      match a
      case Intrude(inode, isSocket) =>
        InodesPut(s.dir, Socket, Node(inode, isSocket));
        hide ProcsInv, Inodes;
      case Listen(_, inode) =>
        InodesPut(s.dir, Socket, Node(inode, true));
        hide ProcsInv, Inodes;
      case Arrive(_) =>
      case _ =>
        StepFrames(s, a);
        hide ProcsInv, Inodes, Enabled, Do;
    }
  }

  lemma SweepKeepsNodes(s: System, a: Action)
    requires ProcsInv(s) && NodesInv(s) && Enabled(s, a) && (a.Move? || a.Remove? || a.Restore?)
    ensures NodesInv(Do(s, a))
  {
    assert ProcInv(s, a.p, s.procs[a.p]);
    var quarantined := Quarantine(s.procs[a.p].pc.phase.token);
    match a
    case Move(p) =>
      if Socket in s.dir {
        InodesDrop(s.dir, Socket);
        InodesPut(s.dir - {Socket}, quarantined, s.dir[Socket]);
      }
      hide Inodes;
    case Remove(p, ok) =>
      InodesDrop(s.dir, quarantined);
      hide Inodes;
    case Restore(p) =>
      InodesDrop(s.dir, quarantined);
      if Socket !in s.dir {
        InodesPut(s.dir - {quarantined}, Socket, s.dir[quarantined]);
      }
      hide Inodes;
  }

  lemma StepKeepsBinders(s: System, a: Action)
    requires ProcsInv(s) && BindersInv(s) && Enabled(s, a)
    ensures BindersInv(Do(s, a))
  {
    if a.Listen? {
      assert ProcInv(s, a.p, s.procs[a.p]);
    } else if !a.Intrude? && !a.Arrive? {
      StepFrames(s, a);
      hide ProcsInv, Enabled, Do;
    }
  }

  lemma StepKeepsRemovals(s: System, a: Action)
    requires Inv(s) && Enabled(s, a)
    ensures RemovalsInv(Do(s, a))
  {
    if a.Remove? {
      RemovesRightly(s, a);
    } else if a.Listen? {
      assert a.inode !in s.removed;
      hide ProcsInv, NodesInv, BindersInv;
    } else if !a.Intrude? && !a.Arrive? {
      StepFrames(s, a);
      hide ProcsInv, NodesInv, BindersInv, Enabled, Do;
    }
  }

  // The lock is what makes this so: the remover holds it, and so would any other process whose socket counts.
  lemma RemovesRightly(s: System, a: Action)
    requires Inv(s) && Enabled(s, a) && a.Remove?
    ensures RemovalsInv(Do(s, a))
  {
    var p, s' := a.p, Do(s, a);
    var node := s.dir[Quarantine(s.procs[p].pc.phase.token)];
    assert ProcInv(s, p, s.procs[p]);
    if node.inode in s.binder && s.binder[node.inode] != p {
      var q := s.binder[node.inode];
      assert ProcInv(s, q, s.procs[q]) && s.procs[q].bound == Some(node.inode);
    }
    StepFrames(s, a);
    assert forall i :: i in s'.removed && i !in s.removed ==> i == node.inode;
    hide ProcsInv, NodesInv, BindersInv, ProcInv, Frame;
    assert Frame(s, a, s');
  }

  predicate OfSweep(a: Action) { a.Choose? || a.Move? || a.Inspect? || a.Remove? || a.Restore? || a.GiveUpSweep? }

  lemma OwnStepKeeps(s: System, a: Action)
    requires ProcsInv(s) && NodesInv(s) && Enabled(s, a) && !a.Intrude? && (s.lock.Some? ==> s.lock.value in s.procs)
    ensures var s' := Do(s, a); a.p in s'.procs && ProcInv(s', a.p, s'.procs[a.p])
  {
    if OfSweep(a) {
      OwnSweepKeeps(s, a);
    } else if a.Abort? || a.Close? || a.ShutStore? || a.Release? || a.Crash? {
      OwnEndKeeps(s, a);
    } else {
      assert !a.Arrive? ==> ProcInv(s, a.p, s.procs[a.p]);
      hide ProcsInv, NodesInv;
    }
  }

  lemma OwnEndKeeps(s: System, a: Action)
    requires ProcsInv(s) && Enabled(s, a) && (a.Abort? || a.Close? || a.ShutStore? || a.Release? || a.Crash?)
    ensures var s' := Do(s, a); a.p in s'.procs && ProcInv(s', a.p, s'.procs[a.p])
  {
    assert ProcInv(s, a.p, s.procs[a.p]);
    hide ProcsInv;
  }

  lemma SweepEnds(s: System, s': System, p: Proc, proc: Process, ok: bool)
    requires ProcInv(s, p, proc) && proc.pc.Sweeping? && s'.lock == s.lock
    ensures ProcInv(s', p, proc.(pc := AfterSweep(proc.pc.next, ok)))
  {
    hide PhaseInv, BoundAt;
  }

  lemma OwnSweepKeeps(s: System, a: Action)
    requires ProcsInv(s) && NodesInv(s) && Enabled(s, a) && OfSweep(a)
    ensures var s' := Do(s, a); a.p in s'.procs && ProcInv(s', a.p, s'.procs[a.p])
  {
    var proc, s' := s.procs[a.p], Do(s, a);
    assert ProcInv(s, a.p, proc);
    hide ProcsInv, NodesInv;
    SweepEnds(s, s', a.p, proc, true);
    SweepEnds(s, s', a.p, proc, false);
    if s'.procs[a.p].pc.Sweeping? {
      SweepGoesOn(s, a);
    } else {
      assert s'.procs[a.p].pc == AfterSweep(proc.pc.next, true) || s'.procs[a.p].pc == AfterSweep(proc.pc.next, false);
    }
    hide ProcInv;
  }

  lemma SweepGoesOn(s: System, a: Action)
    requires Enabled(s, a) && OfSweep(a) && ProcInv(s, a.p, s.procs[a.p]) && Do(s, a).procs[a.p].pc.Sweeping?
    ensures ProcInv(Do(s, a), a.p, Do(s, a).procs[a.p])
  {
    var proc, s' := s.procs[a.p], Do(s, a);
    var proc' := s'.procs[a.p];
    SweepPhase(s, a);
    assert proc' == proc.(pc := proc.pc.(phase := proc'.pc.phase)) && s'.lock == s.lock;
    hide Do, Enabled, PhaseInv, BoundAt, Matches, AfterSweep;
  }

  lemma SweepPhase(s: System, a: Action)
    requires Enabled(s, a) && OfSweep(a) && s.procs[a.p].pc.Sweeping? && Do(s, a).procs[a.p].pc.Sweeping?
    requires var pc := s.procs[a.p].pc; PhaseInv(s, s.procs[a.p].bound, pc.phase, pc.expected)
    ensures var pc := Do(s, a).procs[a.p].pc; PhaseInv(Do(s, a), s.procs[a.p].bound, pc.phase, pc.expected)
  {
    assert a.Choose? || a.Move? || a.Inspect?;
  }

  // A step of another process, or of the intruder. While a process holds the lock, the others can only start,
  // be refused and crash.
  lemma OtherStepKeeps(s: System, a: Action, q: Proc)
    requires ProcsInv(s) && Enabled(s, a) && q in s.procs && (a.Intrude? || a.p != q)
    ensures var s' := Do(s, a); q in s'.procs && ProcInv(s', q, s'.procs[q])
  {
    assert ProcInv(s, q, s.procs[q]);
    if a.Intrude? || a.Arrive? {
      OutsiderKeeps(s, a, q);
    } else {
      assert ProcInv(s, a.p, s.procs[a.p]);
      StepFrames(s, a);
      LockedOut(s, a, q);
      hide ProcsInv, Enabled, Do, PhaseInv;
    }
  }

  lemma OutsiderKeeps(s: System, a: Action, q: Proc)
    requires Enabled(s, a) && (a.Intrude? || a.Arrive?) && q in s.procs && (a.Intrude? || a.p != q) && ProcInv(s, q, s.procs[q])
    ensures var s' := Do(s, a); q in s'.procs && ProcInv(s', q, s'.procs[q])
  {
  }

  lemma LockedOut(s: System, a: Action, q: Proc)
    requires Enabled(s, a) && !a.Intrude? && !a.Arrive? && a.p != q && ProcInv(s, a.p, s.procs[a.p])
    ensures s.lock == Some(q) ==> Do(s, a).dir == s.dir && Do(s, a).lock == s.lock
    ensures s.lock != Some(q) ==> Do(s, a).lock != Some(q)
  {
    hide PhaseInv;
    assert s.lock == Some(q) ==> a.Acquire? || a.Crash?;
  }

  lemma StepKeeps(s: System, a: Action)
    requires Inv(s) && Enabled(s, a)
    ensures Inv(Do(s, a))
  {
    hide ProcsInv, NodesInv, BindersInv, RemovalsInv, Do, Enabled;
    StepKeepsNodes(s, a);
    StepKeepsBinders(s, a);
    StepKeepsRemovals(s, a);
    StepKeepsProcs(s, a);
    StepKeepsHolder(s, a);
  }

  lemma StepKeepsHolder(s: System, a: Action)
    requires Enabled(s, a) && (s.lock.Some? ==> s.lock.value in s.procs)
    ensures Do(s, a).lock.Some? ==> Do(s, a).lock.value in Do(s, a).procs
  {
  }

  lemma StepKeepsProcs(s: System, a: Action)
    requires ProcsInv(s) && NodesInv(s) && Enabled(s, a) && (s.lock.Some? ==> s.lock.value in s.procs)
    ensures ProcsInv(Do(s, a))
  {
    hide ProcInv, NodesInv;
    var s' := Do(s, a);
    forall q | q in s'.procs ensures ProcInv(s', q, s'.procs[q]) {
      if !a.Intrude? && a.p == q {
        OwnStepKeeps(s, a);
      } else {
        assert q in s.procs;
        OtherStepKeeps(s, a, q);
      }
    }
  }

  // ---------- whole runs ----------

  ghost predicate Runs(s: System, actions: seq<Action>)
    decreases |actions|
  {
    actions == [] || (Enabled(s, actions[0]) && Runs(Do(s, actions[0]), actions[1..]))
  }

  ghost function End(s: System, actions: seq<Action>): System
    requires Runs(s, actions)
    decreases |actions|
  {
    if actions == [] then s else End(Do(s, actions[0]), actions[1..])
  }

  lemma {:induction false} RunsKeep(s: System, actions: seq<Action>)
    requires Inv(s) && Runs(s, actions)
    ensures Inv(End(s, actions))
    decreases |actions|
  {
    if actions != [] {
      StepKeeps(s, actions[0]);
      RunsKeep(Do(s, actions[0]), actions[1..]);
    }
  }

  // At most one process has the store open, and it is the one that holds the lock.
  lemma OneStore(actions: seq<Action>, p: Proc, q: Proc)
    requires Runs(START, actions)
    ensures var s := End(START, actions);
            p in s.procs && s.procs[p].storeOpen ==>
              s.lock == Some(p) && (q in s.procs && s.procs[q].storeOpen ==> q == p)
  {
    StartHolds();
    RunsKeep(START, actions);
    var s := End(START, actions);
    assert forall r :: r in s.procs ==> ProcInv(s, r, s.procs[r]);
    hide NodesInv, BindersInv, RemovalsInv, ProcsInv;
  }

  // No node is lost: each one made is under one name, its own or a quarantine's, unless it was a socket and
  // was removed. A process that expects a certain socket removes no other, and no process removes one that
  // another, still there, has bound.
  lemma OnlyStaleSocketsGo(actions: seq<Action>, i: Inode)
    requires Runs(START, actions) && i in End(START, actions).made
    ensures var s := End(START, actions);
            if i in s.removed then RemovalOk(s, i, s.removed[i]) && forall n :: n in s.dir ==> s.dir[n].inode != i
            else exists n :: n in s.dir && s.dir[n].inode == i
    ensures var s := End(START, actions);
            forall n, m :: n in s.dir && m in s.dir && s.dir[n].inode == s.dir[m].inode ==> n == m
  {
    StartHolds();
    RunsKeep(START, actions);
    hide ProcsInv, BindersInv;
  }

  // While a daemon serves, the socket it bound is the node at the socket's name, whatever others start, do or
  // leave behind.
  lemma ServedSocketStays(actions: seq<Action>, p: Proc)
    requires Runs(START, actions)
    ensures var s := End(START, actions);
            p in s.procs && s.procs[p].pc.Serving? ==>
              Socket in s.dir && s.dir[Socket] == Node(s.procs[p].pc.identity, true) && s.procs[p].bound == Some(s.procs[p].pc.identity)
  {
    StartHolds();
    RunsKeep(START, actions);
    var s := End(START, actions);
    assert p in s.procs ==> ProcInv(s, p, s.procs[p]);
    hide NodesInv, BindersInv, RemovalsInv, ProcsInv;
  }

  // A shutdown finds its own socket: what it inspects is the node it bound, so it restores nothing unless
  // looking at it failed.
  lemma ShutdownFindsItsOwn(actions: seq<Action>, p: Proc)
    requires Runs(START, actions)
    ensures var s := End(START, actions);
            p in s.procs && Enabled(s, Inspect(p, true)) && s.procs[p].pc.next.ThenRelease? ==>
              Do(s, Inspect(p, true)).procs[p].pc.phase.Removing?
  {
    StartHolds();
    RunsKeep(START, actions);
    var s := End(START, actions);
    assert p in s.procs ==> ProcInv(s, p, s.procs[p]);
    hide NodesInv, BindersInv, RemovalsInv, ProcsInv;
  }

  // How far a shutdown without a failing call has come: its socket is where it bound it, or in quarantine and found to
  // be its own, or removed.
  ghost predicate ShuttingDown(s: System, p: Proc) {
    && p in s.procs && s.procs[p].bound.Some?
    && var proc := s.procs[p];
    match proc.pc
    case Serving(_) => true
    case Sweeping(phase, expected, next) => next.ThenRelease? && !phase.Restoring?
    case Releasing => proc.bound.value in s.removed
    case Gone => proc.bound.value in s.removed
    case _ => false
  }

  // A step after which none of the process's calls has failed: it does not crash, give up, run out of names, or fail to
  // look at the node or to unlink it.
  predicate Succeeds(s: System, p: Proc, a: Action)
    requires Enabled(s, a)
  {
    a.Intrude? || a.p != p
    || match a
       case Crash(_) => false
       case Abort(_) => false
       case GiveUpSweep(_) => false
       case Choose(_, token) => Quarantine(token) !in s.dir
       case Inspect(_, ok) => ok
       case Remove(_, ok) => ok
       case _ => true
  }

  lemma ShutdownStep(s: System, p: Proc, a: Action)
    requires Inv(s) && ShuttingDown(s, p) && Enabled(s, a) && Succeeds(s, p, a)
    ensures ShuttingDown(Do(s, a), p) && Do(s, a).procs[p].bound == s.procs[p].bound
  {
    assert ProcInv(s, p, s.procs[p]);
    if a.Intrude? || a.p != p {
      OthersLeave(s, p, a);
    } else {
      hide ProcsInv, NodesInv, BindersInv, RemovalsInv;
    }
  }

  lemma OthersLeave(s: System, p: Proc, a: Action)
    requires ShuttingDown(s, p) && Enabled(s, a) && (a.Intrude? || a.p != p)
    ensures ShuttingDown(Do(s, a), p) && Do(s, a).procs[p] == s.procs[p]
  {
    assert forall i :: i in s.removed ==> i in Do(s, a).removed;
  }

  ghost predicate AllSucceed(s: System, p: Proc, actions: seq<Action>)
    requires Runs(s, actions)
    decreases |actions|
  {
    actions == [] || (Succeeds(s, p, actions[0]) && AllSucceed(Do(s, actions[0]), p, actions[1..]))
  }

  // A shutdown none of whose calls fails removes the socket it bound, whatever others do in the meantime; and the
  // removed node is under no name, nor is any other left behind by it.
  lemma {:induction false} ShutdownRemovesItsOwn(s: System, p: Proc, actions: seq<Action>)
    requires Inv(s) && ShuttingDown(s, p) && Runs(s, actions) && AllSucceed(s, p, actions)
    ensures var after := End(s, actions);
            && p in after.procs && after.procs[p].bound == s.procs[p].bound && s.procs[p].bound.Some?
            && (after.procs[p].pc == Gone ==>
                  && s.procs[p].bound.value in after.removed
                  && forall n :: n in after.dir ==> after.dir[n].inode != s.procs[p].bound.value)
    decreases |actions|
  {
    if actions == [] {
      assert NodesInv(s);
      hide ProcsInv, BindersInv, RemovalsInv;
    } else {
      ShutdownStep(s, p, actions[0]);
      StepKeeps(s, actions[0]);
      ShutdownRemovesItsOwn(Do(s, actions[0]), p, actions[1..]);
      hide Inv, Do, Enabled, ShuttingDown, Succeeds;
    }
  }

  // A node that was not the one looked for goes back to its name if that is free, and otherwise stays in quarantine; the
  // node that took the name stays either way.
  lemma RestoreKeepsBoth(s: System, p: Proc)
    requires Enabled(s, Restore(p))
    ensures var quarantined, dir := Quarantine(s.procs[p].pc.phase.token), Do(s, Restore(p)).dir;
            if Socket in s.dir then Socket in dir && dir[Socket] == s.dir[Socket] && quarantined in dir && dir[quarantined] == s.dir[quarantined]
            else Socket in dir && dir[Socket] == s.dir[quarantined] && quarantined !in dir
  {
  }

  // The rename into quarantine never lands on another node, although the name was looked up some steps before:
  // only a process that sweeps makes nodes of that kind, and only the one with the lock sweeps.
  lemma QuarantineIsFree(actions: seq<Action>, p: Proc)
    requires Runs(START, actions)
    ensures var s := End(START, actions);
            Enabled(s, Move(p)) ==> Quarantine(s.procs[p].pc.phase.token) !in s.dir
  {
    StartHolds();
    RunsKeep(START, actions);
    var s := End(START, actions);
    assert p in s.procs ==> ProcInv(s, p, s.procs[p]);
    hide NodesInv, BindersInv, RemovalsInv, ProcsInv;
  }
}
