/** The client's operations and its Close, by any number of goroutines (internal/client/client.go): the gate that lets one
    operation at a time have the connection, and the mutex under which the connection is set, closed and dropped. One
    step is a section under the mutex, a step on the gate, or what lies between. */
module Gate {
  import opened Bytes

  type Op = nat
  type Conn = nat

  // An operation: waiting for the gate; past it, dialling, with a connection dialled but not yet set, using one, about to
  // drop it, about to give back the gate.
  datatype Pc =
    | Waiting | Holding | Dialling | Dialled(conn: Conn) | Using(conn: Conn) | Poisoning(conn: Conn) | Releasing
    | Finished(ok: bool)

  // The gate's holder, the connection set, and which connections ever dialled are still open.
  datatype State = State(gate: Option<Op>, conn: Option<Conn>, closed: bool, made: set<Conn>, open: set<Conn>, ops: map<Op, Pc>)

  datatype Action =
    | Arrive(g: Op) | GiveUp(g: Op) | Acquire(g: Op) | Look(g: Op) | Dial(g: Op, conn: Conn) | DialFails(g: Op) | Set(g: Op)
    | Abandon(g: Op) | Complete(g: Op) | Fail(g: Op) | Poison(g: Op) | Release(g: Op) | Close

  const START := State(None, None, false, {}, {}, map[])

  // An operation can complete only on an open connection; it can fail on any, and it may give up before it has the
  // connection, or before it has written to it.
  predicate Enabled(s: State, a: Action) {
    if a.Close? then true
    else if a.Arrive? then a.g !in s.ops
    else
      && a.g in s.ops
      && var pc := s.ops[a.g];
         match a
         case GiveUp(_) => pc.Waiting? || pc.Holding?
         case Abandon(_) => pc.Using?
         case Acquire(_) => pc.Waiting? && s.gate == None
         case Look(_) => pc.Holding?
         case Dial(_, c) => pc.Dialling? && c !in s.made
         case DialFails(_) => pc.Dialling?
         case Set(_) => pc.Dialled?
         case Complete(_) => pc.Using? && pc.conn in s.open
         case Fail(_) => pc.Using?
         case Poison(_) => pc.Poisoning?
         case Release(_) => pc.Releasing?
         case _ => false
  }

  function Goto(s: State, g: Op, pc: Pc): State { s.(ops := s.ops[g := pc]) }

  // Closes the connection that is set, if any.
  function Drop(s: State): State { if s.conn.None? then s else s.(open := s.open - {s.conn.value}, conn := None) }

  function Do(s: State, a: Action): State
    requires Enabled(s, a)
  {
    match a
    case Arrive(g) => Goto(s, g, Waiting)
    case GiveUp(g) => Goto(s, g, if s.ops[g].Waiting? then Finished(false) else Releasing)
    case Abandon(g) => Goto(s, g, Releasing)
    case Acquire(g) => Goto(s.(gate := Some(g)), g, Holding)
    case Look(g) => Goto(s, g, if s.closed then Releasing else if s.conn.Some? then Using(s.conn.value) else Dialling)
    case Dial(g, c) => Goto(s.(made := s.made + {c}, open := s.open + {c}), g, Dialled(c))
    case DialFails(g) => Goto(s, g, Releasing)
    case Set(g) =>
      var c := s.ops[g].conn;
      if s.closed then Goto(s.(open := s.open - {c}), g, Releasing)
      else if s.conn == None then Goto(s.(conn := Some(c)), g, Using(c))
      else Goto(s.(open := s.open - {c}), g, Using(s.conn.value))
    case Complete(g) => Goto(s, g, Releasing)
    case Fail(g) => Goto(s, g, Poisoning(s.ops[g].conn))
    case Poison(g) => Goto(Drop(s), g, Releasing)
    case Release(g) => Goto(s.(gate := None), g, Finished(true))
    case Close => Drop(s).(closed := true)
  }

  // ---------- the invariant ----------

  predicate Past(pc: Pc) { !pc.Waiting? && !pc.Finished? }

  // What the operation with this program counter may count on.
  predicate OpInv(s: State, g: Op, pc: Pc) {
    && (Past(pc) <==> s.gate == Some(g))
    && match pc
       case Dialling => s.conn == None
       case Dialled(c) => s.conn == None && c in s.made && c in s.open
       case Using(c) => c in s.made && s.conn == (if c in s.open then Some(c) else None)
       case Poisoning(c) => c in s.made && s.conn == (if c in s.open then Some(c) else None)
       case _ => true
  }

  ghost predicate OpsInv(s: State) { forall g :: g in s.ops ==> OpInv(s, g, s.ops[g]) }

  // Which connections may be open: the one that is set, and one just dialled.
  predicate OpenInv(s: State) {
    && (s.gate.Some? ==> s.gate.value in s.ops)
    && s.open <= s.made
    && (s.conn.Some? ==> s.conn.value in s.open && !s.closed)
    && forall c :: c in s.open ==> s.conn == Some(c) || (s.gate.Some? && s.ops[s.gate.value] == Dialled(c))
  }

  ghost predicate Inv(s: State) { OpsInv(s) && OpenInv(s) }

  lemma StepKeepsOpen(s: State, a: Action)
    requires Inv(s) && Enabled(s, a)
    ensures OpenInv(Do(s, a))
  {
    assert !a.Close? && !a.Arrive? ==> OpInv(s, a.g, s.ops[a.g]);
    assert s.gate.Some? ==> OpInv(s, s.gate.value, s.ops[s.gate.value]);
    hide OpsInv;
  }

  lemma StepKeepsOp(s: State, a: Action, g: Op)
    requires Inv(s) && Enabled(s, a) && g in Do(s, a).ops
    ensures OpInv(Do(s, a), g, Do(s, a).ops[g])
  {
    assert !a.Close? && !a.Arrive? ==> OpInv(s, a.g, s.ops[a.g]);
    assert g in s.ops ==> OpInv(s, g, s.ops[g]);
    hide OpsInv;
  }

  lemma StepKeeps(s: State, a: Action)
    requires Inv(s) && Enabled(s, a)
    ensures Inv(Do(s, a))
  {
    StepKeepsOpen(s, a);
    hide OpInv, OpenInv;
    forall g | g in Do(s, a).ops ensures OpInv(Do(s, a), g, Do(s, a).ops[g]) {
      StepKeepsOp(s, a, g);
    }
  }

  // ---------- whole runs ----------

  ghost predicate Runs(s: State, actions: seq<Action>)
    decreases |actions|
  {
    actions == [] || (Enabled(s, actions[0]) && Runs(Do(s, actions[0]), actions[1..]))
  }

  ghost function End(s: State, actions: seq<Action>): State
    requires Runs(s, actions)
    decreases |actions|
  {
    if actions == [] then s else End(Do(s, actions[0]), actions[1..])
  }

  lemma {:induction false} RunsKeep(s: State, actions: seq<Action>)
    requires Inv(s) && Runs(s, actions)
    ensures Inv(End(s, actions)) && (s.closed ==> End(s, actions).closed)
    decreases |actions|
  {
    if actions != [] {
      StepKeeps(s, actions[0]);
      RunsKeep(Do(s, actions[0]), actions[1..]);
      hide Inv;
    }
  }

  // One operation at a time has the connection, and what it drops or fails on is its own.
  lemma OneOperation(actions: seq<Action>, g: Op, h: Op)
    requires Runs(START, actions)
    ensures var s := End(START, actions);
            g in s.ops && h in s.ops && Past(s.ops[g]) && Past(s.ops[h]) ==> g == h
    ensures var s := End(START, actions);
            g in s.ops && (s.ops[g].Using? || s.ops[g].Poisoning?) && s.conn.Some? ==> s.conn.value == s.ops[g].conn
  {
    RunsKeep(START, actions);
    var s := End(START, actions);
    assert (g in s.ops ==> OpInv(s, g, s.ops[g])) && (h in s.ops ==> OpInv(s, h, s.ops[h]));
    hide OpsInv, OpenInv;
  }

  // From Close on no connection is set, and no operation completes on one, then or later: whoever uses one finds it
  // closed.
  lemma ClosedForAll(actions: seq<Action>, more: seq<Action>, g: Op)
    requires Runs(START, actions) && End(START, actions).closed && Runs(End(START, actions), more)
    ensures var s := End(End(START, actions), more); s.closed && s.conn == None && !Enabled(s, Complete(g))
  {
    RunsKeep(START, actions);
    RunsKeep(End(START, actions), more);
    var s := End(End(START, actions), more);
    assert g in s.ops ==> OpInv(s, g, s.ops[g]);
    hide OpsInv;
  }

  // No connection leaks: at rest only the one that is set is open, and after Close none.
  lemma NothingLeaks(actions: seq<Action>)
    requires Runs(START, actions)
    requires var s := End(START, actions); forall g :: g in s.ops ==> !Past(s.ops[g])
    ensures var s := End(START, actions);
            s.open == (if s.conn.Some? then {s.conn.value} else {}) && (s.closed ==> s.open == {})
  {
    RunsKeep(START, actions);
    var s := End(START, actions);
    hide OpsInv;
  }
}
