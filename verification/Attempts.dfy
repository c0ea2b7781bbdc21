/** The capture-attempt journal: a pending attempt becomes completed or incomplete, once,
    and startup recovery settles whatever a crash left pending. */
module Attempts {
  import opened Bytes
  import opened Evidence
  import opened Tables
  import opened Order
  import opened Storage

  datatype RecoveryResult = RecoveryResult(completed: nat, incomplete: nat)

  predicate ValidAttempt(a: Attempt) {
    && a.id != "" && a.event.id != "" && a.event.eventType != "" && a.event.protocolVersion > 0
    && a.event.project != "" && a.event.session != "" && a.event.sequence >= 0
    && a.event.occurredAt != ZeroTime && a.event.encoding != ""
  }

  predicate SameAttempt(a: Attempt, b: Attempt) {
    a.id == b.id && a.event == b.event && a.declared == b.declared
  }

  predicate ValidStage(stage: Stage) { stage == HeaderStage || stage == AppendStage }

  // ---------- what each operation may do to the tables ----------

  function AsPending(a: Attempt): Attempt {
    a.(status := Pending, completedAt := None, failureStage := None)
  }

  function AsCompleted(a: Attempt, now: Instant): Attempt {
    a.(status := Completed, completedAt := Some(now), failureStage := None)
  }

  function AsIncomplete(a: Attempt, stage: Stage, now: Instant): Attempt {
    a.(status := Incomplete, completedAt := Some(now), failureStage := Some(stage))
  }

  function WithAttempt(db: Tables, a: Attempt): Tables { db.(attempts := db.attempts[a.id := a]) }

  ghost predicate Beginnable(db: Tables, a: Attempt) {
    && ValidAttempt(a) && a.declared <= MAX_INT64 && (a.status == Unset || a.status == Pending)
    && (a.id in db.attempts ==> SameAttempt(db.attempts[a.id], a) && db.attempts[a.id].status == Pending)
  }

  function Settled(a: Attempt, verified: bool, now: Instant): Attempt {
    if a.status != Pending then a
    else if verified then AsCompleted(a, now)
    else AsIncomplete(a, AppendStage, now)
  }

  // Recovery settles every pending attempt by its evidence and touches nothing else.
  ghost function Recovered(db: Tables, o: Oracle, now: Instant): Tables {
    db.(attempts := map id | id in db.attempts :: Settled(db.attempts[id], Verified(db, db.attempts[id], o), now))
  }

  ghost function PendingIds(db: Tables): set<string> {
    set id | id in db.attempts && db.attempts[id].status == Pending
  }

  ghost function VerifiedIds(db: Tables, o: Oracle): set<string> {
    set id | id in PendingIds(db) && Verified(db, db.attempts[id], o)
  }

  // ---------- recovery, one attempt at a time ----------

  // A recovery that has settled the first k pending attempts, and its counts so far.
  ghost predicate Recovering(db: Tables, o: Oracle, now: Instant, pending: seq<string>, k: nat,
                             tx: Tables, result: RecoveryResult)
  {
    && k <= |pending|
    && tx == PartlyRecovered(db, o, now, pending[..k])
    && result.completed == |VerifiedAmong(db, o, pending[..k])|
    && result.completed + result.incomplete == k
  }

  ghost function PartlyRecovered(db: Tables, o: Oracle, now: Instant, done: seq<string>): Tables {
    db.(attempts := map id | id in db.attempts ::
          if id in done then Settled(db.attempts[id], Verified(db, db.attempts[id], o), now) else db.attempts[id])
  }

  ghost function VerifiedAmong(db: Tables, o: Oracle, done: seq<string>): set<string> {
    set id | id in done && id in db.attempts && Verified(db, db.attempts[id], o)
  }

  ghost predicate IsPendingList(db: Tables, pending: seq<string>) {
    Ascending(pending, StringLess) && forall id :: id in pending <==> id in PendingIds(db)
  }

  lemma RecoveryStarts(db: Tables, o: Oracle, now: Instant, pending: seq<string>)
    ensures Recovering(db, o, now, pending, 0, db, RecoveryResult(0, 0))
  {
  }

  lemma RecoveryStep(db: Tables, o: Oracle, now: Instant, pending: seq<string>, k: nat, tx: Tables, result: RecoveryResult)
    requires Schema(db) && k < |pending| && IsPendingList(db, pending)
    requires Recovering(db, o, now, pending, k, tx, result)
    ensures pending[k] in db.attempts
    ensures var a := db.attempts[pending[k]];
            if Verified(db, a, o) then
              Recovering(db, o, now, pending, k + 1, WithAttempt(tx, AsCompleted(a, now)),
                         result.(completed := result.completed + 1))
            else
              Recovering(db, o, now, pending, k + 1, WithAttempt(tx, AsIncomplete(a, AppendStage, now)),
                         result.(incomplete := result.incomplete + 1))
  {
    hide Verified, PartlyRecovered, VerifiedAmong;
    var id := pending[k];
    assert id in pending;
    NotAmongEarlier(pending, k);
    assert pending[..k + 1] == pending[..k] + [id];
    SettleOne(db, o, now, pending[..k], id);
    CountOne(db, o, pending[..k], id);
  }

  lemma SettleOne(db: Tables, o: Oracle, now: Instant, done: seq<string>, id: string)
    requires Schema(db) && id in PendingIds(db) && id !in done
    ensures var a := db.attempts[id];
            PartlyRecovered(db, o, now, done + [id])
            == WithAttempt(PartlyRecovered(db, o, now, done),
                           if Verified(db, a, o) then AsCompleted(a, now) else AsIncomplete(a, AppendStage, now))
  {
    hide Verified;
  }

  lemma CountOne(db: Tables, o: Oracle, done: seq<string>, id: string)
    requires id in db.attempts && id !in done
    ensures |VerifiedAmong(db, o, done + [id])|
            == |VerifiedAmong(db, o, done)| + if Verified(db, db.attempts[id], o) then 1 else 0
  {
    hide Verified;
    assert VerifiedAmong(db, o, done + [id])
           == VerifiedAmong(db, o, done) + (if Verified(db, db.attempts[id], o) then {id} else {});
  }

  lemma NotAmongEarlier(pending: seq<string>, k: nat)
    requires Ascending(pending, StringLess) && k < |pending|
    ensures pending[k] !in pending[..k]
  {
    StringOrder();
  }

  lemma RecoveryEnds(db: Tables, o: Oracle, now: Instant, pending: seq<string>, tx: Tables, result: RecoveryResult)
    requires Schema(db) && IsPendingList(db, pending)
    requires Recovering(db, o, now, pending, |pending|, tx, result)
    ensures tx == Recovered(db, o, now) && Schema(tx)
    ensures result.completed == |VerifiedIds(db, o)|
    ensures result.completed + result.incomplete == |PendingIds(db)|
  {
    hide Verified;
    assert pending[..|pending|] == pending;
    assert VerifiedAmong(db, o, pending) == VerifiedIds(db, o);
    StringOrder();
    DistinctSize(pending, PendingIds(db));
  }

  lemma {:induction false} DistinctSize(s: seq<string>, elements: set<string>)
    requires Ascending(s, StringLess) && forall x :: x in s <==> x in elements
    ensures |s| == |elements|
  {
    if s != [] {
      var k := |s| - 1;
      NotAmongEarlier(s, k);
      assert s == s[..k] + [s[k]];
      DistinctSize(s[..k], elements - {s[k]});
    }
  }

  // ---------- the operations ----------

  method BeginCaptureAttempt(s: Store, attempt: Attempt) returns (r: Result<()>)
    requires Schema(s.db)
    modifies s
    ensures Schema(s.db)
    ensures r.Err? ==> s.db == old(s.db)
    ensures r.Ok? ==> Beginnable(old(s.db), attempt)
    ensures r.Ok? ==> s.db == if attempt.id in old(s.db).attempts then old(s.db) else WithAttempt(old(s.db), AsPending(attempt))
    ensures r.Ok? ==> attempt.id in s.db.attempts && var a := s.db.attempts[attempt.id];
              a.event == attempt.event && a.declared == attempt.declared && a.status == Pending
    ensures r.Ok? && attempt.id !in old(s.db).attempts ==>
              s.db.attempts[attempt.id].completedAt == None && s.db.attempts[attempt.id].failureStage == None
    ensures r.Err? ==> r.error == Fault || (r.error == Conflict && !Beginnable(old(s.db), attempt))
    ensures Quiet(old(s.faults)) ==> Quiet(s.faults) && if Beginnable(old(s.db), attempt) then r.Ok? else r == Err(Conflict)
  {
    var failed := s.Faulty();
    if failed { return Err(Fault); }
    if attempt.event.occurredAt == ZeroTime || !ValidAttempt(attempt) { return Err(Conflict); }
    if attempt.declared > MAX_INT64 { return Err(Conflict); }
    if attempt.status != Unset && attempt.status != Pending { return Err(Conflict); }
    failed := s.Faulty();
    if failed { return Err(Fault); }
    if attempt.id !in s.db.attempts {
      s.db := WithAttempt(s.db, AsPending(attempt));
      return Ok(());
    }
    // The insert broke the primary key: accept a repeat of the same pending attempt.
    var existing := s.db.attempts[attempt.id];
    if SameAttempt(existing, attempt) && existing.status == Pending { return Ok(()); }
    r := Err(Conflict);
  }

  // completeEvidence: does the stored event match the attempt in metadata, layout and hash?
  method CompleteEvidence(s: Store, attempt: Attempt) returns (r: Result<bool>)
    requires Schema(s.db)
    modifies s`faults
    ensures r.Ok? ==> r.value == Verified(s.db, attempt, s.oracle)
    ensures r.Err? ==> r.error == Fault
    ensures Quiet(old(s.faults)) ==> r.Ok? && Quiet(s.faults)
  {
    var failed := s.Faulty();
    if failed { return Err(Fault); }
    if attempt.event.id !in s.db.events { return Ok(false); }
    var row := s.db.events[attempt.event.id];
    if row.event != attempt.event || row.declared != attempt.declared || row.actual != row.declared
       || !ValidSha256(row.sha256) {
      return Ok(false);
    }
    var stored := s.StoredEvidence(s.db.chunks[attempt.event.id], row.declared);
    match stored
    case Err(Conflict) => r := Ok(false);
    case Err(e) => r := Err(e);
    case Ok(digest) => r := Ok(digest.size == row.actual && digest.sha256 == row.sha256);
  }

  method CompleteCaptureAttempt(s: Store, id: string, now: Instant) returns (r: Result<()>)
    requires Schema(s.db)
    modifies s
    ensures Schema(s.db)
    ensures r.Err? ==> s.db == old(s.db)
    ensures r.Ok? ==> id in old(s.db).attempts && var a := old(s.db).attempts[id];
              || (a.status == Completed && s.db == old(s.db))
              || (a.status == Pending && Verified(old(s.db), a, s.oracle)
                  && s.db == WithAttempt(old(s.db), AsCompleted(a, now)))
    ensures r.Ok? && old(s.db).attempts[id].status == Pending ==> var a := s.db.attempts[id];
              a.status == Completed && a.completedAt == Some(now) && a.failureStage == None && SameAttempt(a, old(s.db).attempts[id])
    ensures Quiet(old(s.faults)) ==>
              if id !in old(s.db).attempts then r == Err(NotFound)
              else var a := old(s.db).attempts[id];
                   if a.status == Completed || (a.status == Pending && Verified(old(s.db), a, s.oracle)) then r.Ok?
                   else r == Err(Conflict)
    ensures Quiet(old(s.faults)) ==> Quiet(s.faults)
  {
    hide Verified;
    var failed := s.Faulty();
    if failed { return Err(Fault); }
    if id !in s.db.attempts { return Err(NotFound); }
    var attempt := s.db.attempts[id];
    if attempt.status == Completed { return Ok(()); }
    if attempt.status != Pending { return Err(Conflict); }
    var valid := CompleteEvidence(s, attempt);
    if valid.Err? { return Err(valid.error); }
    if !valid.value { return Err(Conflict); }
    failed := s.Faulty();
    if failed { return Err(Fault); }
    s.db := WithAttempt(s.db, AsCompleted(attempt, now));
    r := Ok(());
  }

  method MarkCaptureIncomplete(s: Store, id: string, stage: Stage, now: Instant) returns (r: Result<()>)
    requires Schema(s.db)
    modifies s
    ensures Schema(s.db)
    ensures r.Err? ==> s.db == old(s.db)
    ensures r.Ok? ==> id in old(s.db).attempts && ValidStage(stage) && var a := old(s.db).attempts[id];
              || (a.status == Incomplete && a.failureStage == Some(stage) && s.db == old(s.db))
              || (a.status == Pending && s.db == WithAttempt(old(s.db), AsIncomplete(a, stage, now)))
    ensures r.Ok? && old(s.db).attempts[id].status == Pending ==> var a := s.db.attempts[id];
              a.status == Incomplete && a.completedAt == Some(now) && a.failureStage == Some(stage) && SameAttempt(a, old(s.db).attempts[id])
    ensures Quiet(old(s.faults)) ==>
              if !ValidStage(stage) then r == Err(Conflict)
              else if id !in old(s.db).attempts then r == Err(NotFound)
              else var a := old(s.db).attempts[id];
                   if a.status == Pending || (a.status == Incomplete && a.failureStage == Some(stage)) then r.Ok?
                   else r == Err(Conflict)
    ensures Quiet(old(s.faults)) ==> Quiet(s.faults)
  {
    var failed := s.Faulty();
    if failed { return Err(Fault); }
    if !ValidStage(stage) { return Err(Conflict); }
    failed := s.Faulty();
    if failed { return Err(Fault); }
    if id !in s.db.attempts { return Err(NotFound); }
    var attempt := s.db.attempts[id];
    if attempt.status == Incomplete && attempt.failureStage == Some(stage) { return Ok(()); }
    if attempt.status != Pending { return Err(Conflict); }
    failed := s.Faulty();
    if failed { return Err(Fault); }
    s.db := WithAttempt(s.db, AsIncomplete(attempt, stage, now));
    r := Ok(());
  }

  /** Settles all pending attempts in one transaction. */
  method RecoverPendingCaptures(s: Store, now: Instant) returns (r: Result<RecoveryResult>)
    requires Schema(s.db)
    modifies s
    ensures Schema(s.db)
    ensures r.Err? ==> s.db == old(s.db) && r.error == Fault
    ensures r.Ok? ==> s.db == Recovered(old(s.db), s.oracle, now)
    ensures r.Ok? ==> r.value.completed == |VerifiedIds(old(s.db), s.oracle)|
    ensures r.Ok? ==> r.value.completed + r.value.incomplete == |PendingIds(old(s.db))|
    ensures Quiet(old(s.faults)) ==> r.Ok?
  {
    hide Verified, IsPendingList, Recovering, VerifiedIds, PendingIds, Recovered, AsCompleted, AsIncomplete, WithAttempt;
    var failed := s.Faulty();
    if failed { return Err(Fault); }
    ghost var db := s.db;
    var tx := s.db;
    var pending := PendingAttempts(tx);
    var result := RecoveryResult(0, 0);
    RecoveryStarts(db, s.oracle, now, pending);
    var k: nat := 0;
    while k < |pending|
      invariant k <= |pending| && s.db == db
      invariant Recovering(db, s.oracle, now, pending, k, tx, result)
      invariant Quiet(old(s.faults)) ==> Quiet(s.faults)
    {
      RecoveryStep(db, s.oracle, now, pending, k, tx, result);
      var attempt := s.db.attempts[pending[k]];
      var complete := CompleteEvidence(s, attempt);
      if complete.Err? { return Err(complete.error); }
      failed := s.Faulty();
      if failed { return Err(Fault); }
      if complete.value {
        tx, result := WithAttempt(tx, AsCompleted(attempt, now)), result.(completed := result.completed + 1);
      } else {
        tx, result := WithAttempt(tx, AsIncomplete(attempt, AppendStage, now)), result.(incomplete := result.incomplete + 1);
      }
      k := k + 1;
    }
    failed := s.Faulty();
    if failed { return Err(Fault); }
    RecoveryEnds(db, s.oracle, now, pending, tx, result);
    s.db := tx;
    r := Ok(result);
  }

  // The query for pending attempts, in attempt order.
  method PendingAttempts(tx: Tables) returns (pending: seq<string>)
    ensures IsPendingList(tx, pending)
  {
    StringOrder();
    var open := set id | id in tx.attempts && tx.attempts[id].status == Pending;
    pending := Sorted(open, StringLess);
  }
}
