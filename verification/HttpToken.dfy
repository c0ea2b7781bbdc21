/** The HTTP token that every process sharing a runtime directory agrees on (internal/daemon/runtime_lock.go):
    any number of callers of `LoadOrCreateHTTPToken`, one system call at a time, in any order, with failing
    calls anywhere. Temporary names are fresh and nothing but the callers' own clean-up deletes a file. */
module HttpToken {
  import opened Bytes

  type Caller = nat
  type Inode = nat

  const MIN_SIZE := 43
  const MAX_SIZE := 512

  datatype After = Retry | GiveUp

  // Where a caller is: between two system calls, or done. `Reading` has its descriptor; the three that
  // follow `Creating` have a temporary file to remove.
  datatype Pc =
    | Looking(round: nat) | Opening(round: nat) | Reading(inode: Inode, got: string)
    | Creating(round: nat)
    | Writing(round: nat, temp: Inode, token: string, written: nat)
    | Publishing(round: nat, temp: Inode, token: string)
    | Cleaning(round: nat, temp: Inode, after: After)
    | Returned(token: string) | Malformed | Broken | NotConverged

  // The files, which of them is `http.token`, and the temporary names with who made them.
  datatype Directory = Directory(
    content: map<Inode, string>, published: Option<Inode>, temps: map<Inode, Caller>, callers: map<Caller, Pc>)

  datatype Action =
    | Arrive(g: Caller) | Look(g: Caller) | OpenFile(g: Caller) | Read(g: Caller, n: nat)
    | Create(g: Caller, inode: Inode, token: string) | Write(g: Caller, n: nat) | Publish(g: Caller) | Clean(g: Caller)
    | Break(g: Caller)

  predicate Acceptable(wellFormed: string -> bool, token: string) {
    MIN_SIZE <= |token| <= MAX_SIZE && wellFormed(token)
  }

  function Init(before: Option<string>): Directory {
    match before
    case None => Directory(map[], None, map[], map[])
    case Some(token) => Directory(map[0 := token], Some(0), map[], map[])
  }

  predicate Finished(pc: Pc) { pc.Returned? || pc.Malformed? || pc.Broken? || pc.NotConverged? }

  predicate Enabled(wellFormed: string -> bool, d: Directory, a: Action) {
    if a.Arrive? then a.g !in d.callers
    else
      && a.g in d.callers
      && var pc := d.callers[a.g];
         match a
         case Arrive(_) => false
         case Look(_) => pc.Looking?
         case OpenFile(_) => pc.Opening?
         case Read(_, n) => pc.Reading? && pc.inode in d.content && 0 < n <= |d.content[pc.inode]| - |pc.got|
         case Create(_, inode, token) => pc.Creating? && inode !in d.content && |token| == MIN_SIZE && wellFormed(token)
         case Write(_, n) => pc.Writing? && pc.temp in d.content && 0 < n <= |pc.token| - pc.written
         case Publish(_) => pc.Publishing?
         case Clean(_) => pc.Cleaning?
         case Break(_) => !Finished(pc) && !pc.Cleaning?
  }

  function Goto(d: Directory, g: Caller, pc: Pc): Directory { d.(callers := d.callers[g := pc]) }

  function Do(wellFormed: string -> bool, d: Directory, a: Action): Directory
    requires Enabled(wellFormed, d, a)
  {
    if a.Arrive? then Goto(d, a.g, Looking(0))
    else
      var pc := d.callers[a.g];
      match a
      case Look(g) => Goto(d, g, if d.published.None? then Creating(pc.round) else Opening(pc.round))
      case OpenFile(g) =>
        if d.published.None? || d.published.value !in d.content then Goto(d, g, Broken)
        else if MIN_SIZE <= |d.content[d.published.value]| <= MAX_SIZE then Goto(d, g, Reading(d.published.value, ""))
        else Goto(d, g, Malformed)
      case Read(g, n) =>
        var whole := d.content[pc.inode];
        var got := pc.got + whole[|pc.got|..|pc.got| + n];
        Goto(d, g, if |got| < |whole| then Reading(pc.inode, got) else if wellFormed(got) then Returned(got) else Malformed)
      case Create(g, inode, token) =>
        Goto(d.(content := d.content[inode := ""], temps := d.temps[inode := g]), g, Writing(pc.round, inode, token, 0))
      case Write(g, n) =>
        var written := pc.written + n;
        Goto(d.(content := d.content[pc.temp := d.content[pc.temp] + pc.token[pc.written..written]]), g,
             if written < |pc.token| then Writing(pc.round, pc.temp, pc.token, written) else Publishing(pc.round, pc.temp, pc.token))
      case Publish(g) =>
        // The rename refuses to replace; when it succeeds, the clean-up finds the temporary name gone.
        if d.published.Some? then Goto(d, g, Cleaning(pc.round, pc.temp, Retry))
        else Goto(d.(published := Some(pc.temp), temps := d.temps - {pc.temp}), g, Returned(pc.token))
      case Clean(g) =>
        Goto(d.(temps := d.temps - {pc.temp}), g,
             if pc.after.GiveUp? then Broken else if pc.round < 1 then Looking(pc.round + 1) else NotConverged)
      case Break(g) =>
        Goto(d, g, if pc.Writing? || pc.Publishing? then Cleaning(pc.round, pc.temp, GiveUp) else Broken)
      case Arrive(_) => d
  }

  // ---------- the invariant ----------

  // The text of `http.token`.
  function Published(d: Directory): Option<string> {
    if d.published.Some? && d.published.value in d.content then Some(d.content[d.published.value]) else None
  }

  predicate HoldsTemp(pc: Pc) { pc.Writing? || pc.Publishing? || pc.Cleaning? }

  // What each caller knows. Only the first round can create, and the second round finds the file.
  ghost predicate Knows(wellFormed: string -> bool, d: Directory, g: Caller, pc: Pc) {
    && (HoldsTemp(pc) ==> pc.temp in d.temps && d.temps[pc.temp] == g && pc.temp in d.content)
    && match pc
       case Looking(round) => round <= 1 && (round == 1 ==> Published(d).Some?)
       case Opening(round) => Published(d).Some?
       case Creating(round) => round == 0
       case Reading(inode, got) =>
         && d.published == Some(inode) && inode in d.content
         && MIN_SIZE <= |d.content[inode]| <= MAX_SIZE
         && |got| < |d.content[inode]| && got == d.content[inode][..|got|]
       case Writing(round, temp, token, written) =>
         && round == 0 && Acceptable(wellFormed, token) && |token| == MIN_SIZE
         && written < |token| && d.content[temp] == token[..written]
       case Publishing(round, temp, token) => round == 0 && Acceptable(wellFormed, token) && d.content[temp] == token
       case Cleaning(round, _, after) => round == 0 && (after == Retry ==> Published(d).Some?)
       case Returned(token) => Published(d) == Some(token) && Acceptable(wellFormed, token)
       case Malformed => Published(d).Some? && !Acceptable(wellFormed, Published(d).value)
       case Broken => true
       case NotConverged => false
  }

  // What the directory holds: a file that is there from before, or an acceptable one; and no temporary name
  // without a caller that will remove it.
  ghost predicate Files(wellFormed: string -> bool, before: Option<string>, d: Directory) {
    && (d.published.Some? ==> Published(d).Some? && d.published.value !in d.temps)
    && (before.Some? ==> Published(d) == before)
    && (before.None? && Published(d).Some? ==> Acceptable(wellFormed, Published(d).value))
    && (forall i :: i in d.temps ==>
          d.temps[i] in d.callers && HoldsTemp(d.callers[d.temps[i]]) && d.callers[d.temps[i]].temp == i)
  }

  ghost predicate Callers(wellFormed: string -> bool, d: Directory) {
    forall g :: g in d.callers ==> Knows(wellFormed, d, g, d.callers[g])
  }

  ghost predicate Inv(wellFormed: string -> bool, before: Option<string>, d: Directory) {
    Files(wellFormed, before, d) && Callers(wellFormed, d)
  }

  // Another caller's step changes nothing a caller relies on.
  ghost predicate Undisturbed(d: Directory, d': Directory, g: Caller) {
    && (Published(d).Some? ==> d'.published == d.published && Published(d') == Published(d))
    && (forall i :: i in d.temps && d.temps[i] == g && i in d.content ==>
          i in d'.temps && d'.temps[i] == g && i in d'.content && d'.content[i] == d.content[i])
  }

  lemma KnowsStill(wellFormed: string -> bool, d: Directory, d': Directory, g: Caller, pc: Pc)
    requires Knows(wellFormed, d, g, pc) && Undisturbed(d, d', g)
    ensures Knows(wellFormed, d', g, pc)
  {
  }

  lemma StepUndisturbed(wellFormed: string -> bool, before: Option<string>, d: Directory, a: Action, g: Caller)
    requires Inv(wellFormed, before, d) && Enabled(wellFormed, d, a) && g != a.g
    ensures Undisturbed(d, Do(wellFormed, d, a), g)
  {
  }

  lemma StepKnows(wellFormed: string -> bool, before: Option<string>, d: Directory, a: Action)
    requires Inv(wellFormed, before, d) && Enabled(wellFormed, d, a)
    ensures var d' := Do(wellFormed, d, a); Knows(wellFormed, d', a.g, d'.callers[a.g])
  {
    match a
    case Read(_, _) => ReadKnows(wellFormed, before, d, a);
    case Write(_, _) => WriteKnows(wellFormed, before, d, a);
    case _ =>
  }

  lemma ReadKnows(wellFormed: string -> bool, before: Option<string>, d: Directory, a: Action)
    requires Inv(wellFormed, before, d) && Enabled(wellFormed, d, a) && a.Read?
    ensures var d' := Do(wellFormed, d, a); Knows(wellFormed, d', a.g, d'.callers[a.g])
  {
    var pc := d.callers[a.g];
    var whole, n := d.content[pc.inode], |pc.got| + a.n;
    assert whole[..|pc.got|] + whole[|pc.got|..n] == whole[..n];
    assert whole[..|whole|] == whole;
  }

  lemma WriteKnows(wellFormed: string -> bool, before: Option<string>, d: Directory, a: Action)
    requires Inv(wellFormed, before, d) && Enabled(wellFormed, d, a) && a.Write?
    ensures var d' := Do(wellFormed, d, a); Knows(wellFormed, d', a.g, d'.callers[a.g])
  {
    var pc := d.callers[a.g];
    var n := pc.written + a.n;
    assert pc.token[..pc.written] + pc.token[pc.written..n] == pc.token[..n];
    assert pc.token[..|pc.token|] == pc.token;
  }

  lemma StepFiles(wellFormed: string -> bool, before: Option<string>, d: Directory, a: Action)
    requires Inv(wellFormed, before, d) && Enabled(wellFormed, d, a)
    ensures Files(wellFormed, before, Do(wellFormed, d, a))
  {
  }

  lemma StepKeeps(wellFormed: string -> bool, before: Option<string>, d: Directory, a: Action)
    requires Inv(wellFormed, before, d) && Enabled(wellFormed, d, a)
    ensures Inv(wellFormed, before, Do(wellFormed, d, a))
  {
    StepFiles(wellFormed, before, d, a);
    StepKnows(wellFormed, before, d, a);
    var d' := Do(wellFormed, d, a);
    forall g | g in d'.callers ensures Knows(wellFormed, d', g, d'.callers[g]) {
      if g != a.g {
        assert g in d.callers && d'.callers[g] == d.callers[g];
        StepUndisturbed(wellFormed, before, d, a, g);
        KnowsStill(wellFormed, d, d', g, d.callers[g]);
      }
    }
  }

  // ---------- whole runs ----------

  ghost predicate Runs(wellFormed: string -> bool, d: Directory, actions: seq<Action>)
    decreases |actions|
  {
    actions == [] || (Enabled(wellFormed, d, actions[0]) && Runs(wellFormed, Do(wellFormed, d, actions[0]), actions[1..]))
  }

  ghost function End(wellFormed: string -> bool, d: Directory, actions: seq<Action>): Directory
    requires Runs(wellFormed, d, actions)
    decreases |actions|
  {
    if actions == [] then d else End(wellFormed, Do(wellFormed, d, actions[0]), actions[1..])
  }

  lemma {:induction false} RunsKeep(wellFormed: string -> bool, before: Option<string>, d: Directory, actions: seq<Action>)
    requires Inv(wellFormed, before, d) && Runs(wellFormed, d, actions)
    ensures Inv(wellFormed, before, End(wellFormed, d, actions))
    decreases |actions|
  {
    if actions != [] {
      StepKeeps(wellFormed, before, d, actions[0]);
      RunsKeep(wellFormed, before, Do(wellFormed, d, actions[0]), actions[1..]);
    }
  }

  // Whoever returns a token returns the whole of the one file, in the accepted form; so all return the same.
  lemma TokensAgree(wellFormed: string -> bool, before: Option<string>, actions: seq<Action>, g: Caller, h: Caller)
    requires Runs(wellFormed, Init(before), actions)
    ensures var d := End(wellFormed, Init(before), actions);
            g in d.callers && d.callers[g].Returned? ==>
              Published(d) == Some(d.callers[g].token) && Acceptable(wellFormed, d.callers[g].token)
    ensures var d := End(wellFormed, Init(before), actions);
            g in d.callers && h in d.callers && d.callers[g].Returned? && d.callers[h].Returned? ==>
              d.callers[g] == d.callers[h]
  {
    RunsKeep(wellFormed, before, Init(before), actions);
  }

  // Two rounds suffice, and only a file that was unacceptable from the start is reported malformed.
  lemma AlwaysConverges(wellFormed: string -> bool, before: Option<string>, actions: seq<Action>, g: Caller)
    requires Runs(wellFormed, Init(before), actions) && g in End(wellFormed, Init(before), actions).callers
    ensures var pc := End(wellFormed, Init(before), actions).callers[g];
            && !pc.NotConverged?
            && (pc.Malformed? ==> before.Some? && !Acceptable(wellFormed, before.value))
            && (pc.Returned? && before.Some? ==> pc.token == before.value)
  {
    RunsKeep(wellFormed, before, Init(before), actions);
  }

  // A caller that no failure has touched, and none will but by a step of its own.
  predicate Unbroken(pc: Pc) { !pc.Broken? && (pc.Cleaning? ==> pc.after == Retry) }

  ghost predicate AllUnbroken(d: Directory) { forall g :: g in d.callers ==> Unbroken(d.callers[g]) }

  lemma StepUnbroken(wellFormed: string -> bool, before: Option<string>, d: Directory, a: Action)
    requires Inv(wellFormed, before, d) && Enabled(wellFormed, d, a) && AllUnbroken(d) && !a.Break?
    ensures AllUnbroken(Do(wellFormed, d, a))
  {
    assert !a.Arrive? ==> Knows(wellFormed, d, a.g, d.callers[a.g]);
    hide Files, Callers;
  }

  lemma {:induction false} RunsUnbroken(wellFormed: string -> bool, before: Option<string>, d: Directory, actions: seq<Action>)
    requires Inv(wellFormed, before, d) && Runs(wellFormed, d, actions) && AllUnbroken(d)
    requires forall a :: a in actions ==> !a.Break?
    ensures AllUnbroken(End(wellFormed, d, actions))
    decreases |actions|
  {
    if actions != [] {
      StepKeeps(wellFormed, before, d, actions[0]);
      StepUnbroken(wellFormed, before, d, actions[0]);
      RunsUnbroken(wellFormed, before, Do(wellFormed, d, actions[0]), actions[1..]);
      hide AllUnbroken, Inv, Do, Enabled;
    }
  }

  // Where no call fails, every caller that has finished has returned the text of the one file, unless that was
  // unacceptable from the start; then none has.
  lemma AllReturn(wellFormed: string -> bool, before: Option<string>, actions: seq<Action>, g: Caller)
    requires Runs(wellFormed, Init(before), actions) && forall a :: a in actions ==> !a.Break?
    requires var d := End(wellFormed, Init(before), actions); g in d.callers && Finished(d.callers[g])
    ensures var d := End(wellFormed, Init(before), actions);
            if before.Some? && !Acceptable(wellFormed, before.value) then d.callers[g] == Malformed
            else Published(d).Some? && d.callers[g] == Returned(Published(d).value) && Acceptable(wellFormed, Published(d).value)
  {
    RunsKeep(wellFormed, before, Init(before), actions);
    RunsUnbroken(wellFormed, before, Init(before), actions);
    var d := End(wellFormed, Init(before), actions);
    assert Knows(wellFormed, d, g, d.callers[g]) && Unbroken(d.callers[g]);
    hide Callers;
  }

  // When every caller has finished, with or without a failure, no temporary file is left.
  lemma NoTempsLeft(wellFormed: string -> bool, before: Option<string>, actions: seq<Action>)
    requires Runs(wellFormed, Init(before), actions)
    requires var d := End(wellFormed, Init(before), actions); forall g :: g in d.callers ==> Finished(d.callers[g])
    ensures End(wellFormed, Init(before), actions).temps == map[]
  {
    RunsKeep(wellFormed, before, Init(before), actions);
    var d := End(wellFormed, Init(before), actions);
    assert forall i :: i in d.temps ==> d.temps[i] in d.callers;
  }

  // ---------- every caller finishes ----------

  // How many of its own steps a caller still has, at most.
  function StepsLeft(d: Directory, pc: Pc): nat {
    match pc
    case Looking(0) => MAX_SIZE + 51
    case Creating(_) => MAX_SIZE + 50
    case Writing(_, _, token, written) => if written < |token| <= MIN_SIZE then MAX_SIZE + 6 + |token| - written else MAX_SIZE + 6
    case Publishing(_, _, _) => MAX_SIZE + 5
    case Cleaning(_, _, Retry) => MAX_SIZE + 4
    case Looking(_) => MAX_SIZE + 3
    case Opening(_) => MAX_SIZE + 2
    case Reading(inode, got) => if inode in d.content && |got| < |d.content[inode]| <= MAX_SIZE then 1 + |d.content[inode]| - |got| else 1
    case Cleaning(_, _, GiveUp) => 1
    case _ => 0
  }

  // No caller waits for another: each of its own steps, all of them always possible, brings it nearer its
  // end, and no other caller's step sends it back.
  lemma StepDescends(wellFormed: string -> bool, before: Option<string>, d: Directory, a: Action)
    requires Inv(wellFormed, before, d) && Enabled(wellFormed, d, a)
    ensures var d' := Do(wellFormed, d, a);
            && (!a.Arrive? ==> StepsLeft(d', d'.callers[a.g]) < StepsLeft(d, d.callers[a.g]))
            && (forall g :: g in d.callers && g != a.g ==> d'.callers[g] == d.callers[g] && StepsLeft(d', d'.callers[g]) == StepsLeft(d, d.callers[g]))
  {
    if !a.Arrive? { OwnStepDescends(wellFormed, before, d, a); }
    var d' := Do(wellFormed, d, a);
    forall g | g in d.callers && g != a.g ensures d'.callers[g] == d.callers[g] && StepsLeft(d', d'.callers[g]) == StepsLeft(d, d.callers[g]) {
      assert Knows(wellFormed, d, g, d.callers[g]);
      StepUndisturbed(wellFormed, before, d, a, g);
      assert d'.callers[g] == d.callers[g];
      hide Do, Files, Callers, Enabled;
    }
    hide Do, Files, Callers, Enabled, StepsLeft;
  }

  lemma OwnStepDescends(wellFormed: string -> bool, before: Option<string>, d: Directory, a: Action)
    requires Inv(wellFormed, before, d) && Enabled(wellFormed, d, a) && !a.Arrive?
    ensures var d' := Do(wellFormed, d, a); StepsLeft(d', d'.callers[a.g]) < StepsLeft(d, d.callers[a.g])
  {
    assert Knows(wellFormed, d, a.g, d.callers[a.g]);
    StepKnows(wellFormed, before, d, a);
    hide Files, Callers;
  }

  function Budget(d: Directory, g: Caller): nat {
    if g in d.callers then StepsLeft(d, d.callers[g]) else MAX_SIZE + 52
  }

  function OwnSteps(actions: seq<Action>, g: Caller): nat {
    if actions == [] then 0 else OwnSteps(actions[1..], g) + if actions[0].g == g then 1 else 0
  }

  // So no run holds more than that many steps of a caller, whatever the others do.
  lemma {:induction false} FinishesInTime(wellFormed: string -> bool, before: Option<string>, d: Directory, actions: seq<Action>, g: Caller)
    requires Inv(wellFormed, before, d) && Runs(wellFormed, d, actions)
    ensures OwnSteps(actions, g) + Budget(End(wellFormed, d, actions), g) <= Budget(d, g)
    decreases |actions|
  {
    if actions != [] {
      StepKeeps(wellFormed, before, d, actions[0]);
      StepDescends(wellFormed, before, d, actions[0]);
      FinishesInTime(wellFormed, before, Do(wellFormed, d, actions[0]), actions[1..], g);
      hide StepsLeft, Inv;
    }
  }

  lemma CanStep(wellFormed: string -> bool, before: Option<string>, d: Directory, g: Caller, token: string) returns (a: Action)
    requires Inv(wellFormed, before, d) && g in d.callers && !Finished(d.callers[g])
    requires |token| == MIN_SIZE && wellFormed(token)
    ensures a.g == g && !a.Break? && Enabled(wellFormed, d, a)
  {
    assert Knows(wellFormed, d, g, d.callers[g]);
    match d.callers[g]
    case Looking(_) => a := Look(g);
    case Opening(_) => a := OpenFile(g);
    case Reading(_, _) => a := Read(g, 1);
    case Writing(_, _, _, _) => a := Write(g, 1);
    case Publishing(_, _, _) => a := Publish(g);
    case Cleaning(_, _, _) => a := Clean(g);
    case Creating(_) =>
      var inode := FreshInode(d.content.Keys);
      a := Create(g, inode, token);
  }

  lemma {:induction false} FreshInode(used: set<Inode>) returns (inode: Inode)
    ensures forall i :: i in used ==> i < inode
  {
    if used == {} {
      inode := 0;
    } else {
      var i :| i in used;
      inode := FreshInode(used - {i});
      inode := if i < inode then inode else i + 1;
      assert used == used - {i} + {i};
    }
  }
}
