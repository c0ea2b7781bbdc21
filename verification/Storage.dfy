/** The evidence store: streaming ingestion into chunk rows, re-verification, and paged reads.
    A transaction is a working copy of the tables that replaces them on commit. */
module Storage {
  import opened Bytes
  import opened Evidence
  import opened Streams
  import opened Tables
  import opened Order
  import opened Paging

  // ---------- what a scripted reader delivers ----------

  datatype Delivery = Delivered(chunks: seq<bytes>) | Interrupted(err: IoError)

  // The chunks that reading `remaining` bytes through a 32 KiB buffer produces: one per Read.
  ghost function Deliver(inbound: bytes, plan: seq<ReadStep>, remaining: nat): Delivery
    decreases remaining
  {
    if remaining == 0 then Delivered([])
    else
      var n, err := ReadCount(inbound, plan, Min(CHUNK_SIZE, remaining)), ReadError(plan);
      match ReadStops(n, err, remaining)
      case Some(e) => Interrupted(e)
      case None => After([inbound[..n]], Deliver(inbound[n..], Rest(plan), remaining - n))
  }

  ghost function After(chunks: seq<bytes>, d: Delivery): Delivery {
    match d
    case Delivered(more) => Delivered(chunks + more)
    case Interrupted(err) => d
  }

  // Every Read returned the lesser of the buffer's size and what was still to come.
  ghost predicate FullReads(chunks: seq<bytes>, remaining: nat)
    decreases |chunks|
  {
    if chunks == [] then remaining == 0
    else
      && 0 < |chunks[0]| == Min(CHUNK_SIZE, remaining)
      && FullReads(chunks[1..], remaining - |chunks[0]|)
  }

  // The error with which one Read ends a delivery, if it does.
  function ReadStops(n: nat, err: Option<IoError>, remaining: nat): Option<IoError> {
    if n < remaining && err == Some(Eof) then Some(UnexpectedEof)
    else if n < remaining && err.Some? then err
    else if n == 0 then Some(NoProgress)
    else None
  }

  // A delivery is its first Read's chunk and the delivery of the rest.
  lemma DeliverFirst(inbound: bytes, plan: seq<ReadStep>, remaining: nat) returns (n: nat)
    requires remaining > 0 && Deliver(inbound, plan, remaining).Delivered?
    ensures 0 < n <= CHUNK_SIZE && n <= remaining && n <= |inbound|
    ensures Deliver(inbound[n..], Rest(plan), remaining - n).Delivered?
    ensures Deliver(inbound, plan, remaining).chunks
            == [inbound[..n]] + Deliver(inbound[n..], Rest(plan), remaining - n).chunks
  {
    n := ReadCount(inbound, plan, Min(CHUNK_SIZE, remaining));
  }

  lemma TakeInTwo(b: bytes, n: nat, m: nat)
    requires n <= m <= |b|
    ensures b[..n] + b[n..][..m - n] == b[..m]
  {
  }

  lemma {:induction false} DeliveredBytes(inbound: bytes, plan: seq<ReadStep>, remaining: nat)
    requires Deliver(inbound, plan, remaining).Delivered?
    ensures remaining <= |inbound| && Join(Deliver(inbound, plan, remaining).chunks) == inbound[..remaining]
    decreases remaining
  {
    if remaining == 0 {
      DeliverNothing(inbound, plan);
    } else {
      hide Deliver, Join;
      var n := DeliverFirst(inbound, plan, remaining);
      var head, tail := inbound[..n], inbound[n..];
      DeliveredBytes(tail, Rest(plan), remaining - n);
      JoinCons(head, Deliver(tail, Rest(plan), remaining - n).chunks);
      TakeInTwo(inbound, n, remaining);
    }
  }

  lemma {:induction false} DeliveredSizes(inbound: bytes, plan: seq<ReadStep>, remaining: nat)
    requires Deliver(inbound, plan, remaining).Delivered?
    ensures forall c :: c in Deliver(inbound, plan, remaining).chunks ==> 0 < |c| <= CHUNK_SIZE
    decreases remaining
  {
    if remaining > 0 {
      var n := DeliverFirst(inbound, plan, remaining);
      DeliveredSizes(inbound[n..], Rest(plan), remaining - n);
    }
  }

  // Delivered chunks are the canonical split exactly when every Read was full.
  lemma {:induction false} CanonicalIffFullReads(chunks: seq<bytes>)
    requires forall c :: c in chunks ==> |c| > 0
    ensures FullReads(chunks, |Join(chunks)|) <==> chunks == Split(Join(chunks))
    decreases |chunks|
  {
    if chunks != [] {
      var head, tail := chunks[0], chunks[1..];
      CanonicalIffFullReads(tail);
      assert chunks == [head] + tail;
      JoinCons(head, tail);
      assert Join(chunks)[|head|..] == Join(tail);
      SplitHeadTail(Join(chunks), head, tail);
    }
  }

  // A reader that can fill the buffer at every call delivers what it provides, in full reads.
  lemma {:induction false} RoomyDelivers(inbound: bytes, plan: seq<ReadStep>, n: nat)
    requires Provides(inbound, plan, n) && Roomy(plan)
    ensures Deliver(inbound, plan, n).Delivered? && FullReads(Deliver(inbound, plan, n).chunks, n)
    decreases n
  {
    if n > 0 {
      var count := ReadCount(inbound, plan, Min(CHUNK_SIZE, n));
      assert count == Min(CHUNK_SIZE, n);
      RoomyDelivers(inbound[count..], Rest(plan), n - count);
      var rest := Deliver(inbound[count..], Rest(plan), n - count);
      assert Deliver(inbound, plan, n) == After([inbound[..count]], rest);
      assert ([inbound[..count]] + rest.chunks)[1..] == rest.chunks;
    }
  }

  ghost predicate Roomy(plan: seq<ReadStep>) { forall i :: 0 <= i < |plan| ==> plan[i].most >= CHUNK_SIZE }

  lemma SplitHeadTail(payload: bytes, head: bytes, tail: seq<bytes>)
    requires payload != [] && head <= payload
    ensures [head] + tail == Split(payload) <==>
              |head| == Min(CHUNK_SIZE, |payload|) && tail == Split(payload[|head|..])
  {
    var n := Min(CHUNK_SIZE, |payload|);
    var whole, rest := Split(payload), Split(payload[n..]);
    assert whole[0] == Piece(payload, 0);
    assert whole == [whole[0]] + rest by {
      forall i | 0 <= i < |rest| ensures rest[i] == whole[i + 1] {
        assert rest[i] == Piece(payload[n..], i) && whole[i + 1] == Piece(payload, i + 1);
      }
    }
    if [head] + tail == whole {
      assert head == whole[0];
      assert tail == ([head] + tail)[1..] && rest == whole[1..];
    }
    assert |head| == n ==> head == whole[0];
  }

  // One Read moves one chunk from the front of what is to come to the end of what has come.
  lemma DeliverStep(whole: Delivery, got: seq<bytes>, inbound: bytes, plan: seq<ReadStep>, remaining: nat)
    requires remaining > 0 && whole == After(got, Deliver(inbound, plan, remaining))
    ensures var n := ReadCount(inbound, plan, Min(CHUNK_SIZE, remaining));
            match ReadStops(n, ReadError(plan), remaining)
            case Some(e) => whole == Interrupted(e)
            case None => whole == After(got + [inbound[..n]], Deliver(inbound[n..], Rest(plan), remaining - n))
  {
    var n := ReadCount(inbound, plan, Min(CHUNK_SIZE, remaining));
    var d := Deliver(inbound[n..], Rest(plan), remaining - n);
    if d.Delivered? {
      assert got + ([inbound[..n]] + d.chunks) == got + [inbound[..n]] + d.chunks;
    }
  }

  lemma DeliverNothing(inbound: bytes, plan: seq<ReadStep>)
    ensures Deliver(inbound, plan, 0) == Delivered([])
  {
  }

  // ---------- faults ----------

  // No database statement fails and no context is cancelled.
  ghost predicate Quiet(faults: seq<bool>) {
    forall i :: 0 <= i < |faults| ==> !faults[i]
  }

  datatype Digest = Digest(size: uint64, sha256: string)

  datatype AppendResult = AppendResult(alreadyPresent: bool, actualSize: uint64, sha256: string)

  datatype ReadResult = ReadResult(totalSize: uint64, bytesWritten: uint64, sha256: string)

  datatype Metadata = Metadata(totalSize: uint64, sha256: string)

  // The stored evidence of an event verifies, and equals the digest of what was sent again.
  ghost predicate SameEvidence(db: Tables, id: string, sent: Digest, o: Oracle)
    requires id in db.events && id in db.chunks
  {
    var row, rows := db.events[id], db.chunks[id];
    && Canonical(rows, row.declared as nat)
    && row.declared == row.actual && o.sha256(Stored(rows, row.declared as nat)) == row.sha256
    && sent == Digest(row.actual, row.sha256)
  }

  // The event as inserted: a zero occurrence time becomes the time of receipt.
  function Received(event: Event, now: Instant): Event {
    if event.occurredAt == ZeroTime then event.(occurredAt := now) else event
  }

  lemma WithChunksSnoc(db: Tables, event: Event, chunks: seq<bytes>, chunk: bytes, o: Oracle)
    ensures var before, after := WithChunks(db, event, chunks, o), WithChunks(db, event, chunks + [chunk], o);
            && after.chunks == before.chunks[event.id := before.chunks[event.id][|chunks| := chunk]]
            && after.fts == before.fts + (if o.validUtf8(chunk) then [FtsRowFor(event, chunk)] else [])
            && after == before.(chunks := after.chunks, fts := after.fts)
  {
    RowsOfSnoc(chunks, chunk);
    IndexedSnoc(o, event, chunks, chunk);
  }

  // ---------- the chunk consumer of an append ----------

  /** Inserts each consumed chunk, and its projection row, into the transaction's tables;
      or, when the event is already there, drops it. */
  class ChunkSink {
    const inserting: bool
    const event: Event
    const oracle: Oracle
    var tx: Tables
    var chunkIndex: int
    ghost const base: Tables
    ghost var chunks: seq<bytes>

    ghost predicate Valid()
      reads this
    {
      && chunkIndex == (if inserting then |chunks| else 0)
      && tx == if inserting then WithChunks(base, event, chunks, oracle) else base
    }

    constructor (inserting: bool, tx: Tables, event: Event, oracle: Oracle)
      requires inserting ==> event.id in tx.chunks && tx.chunks[event.id] == map[]
      ensures Valid() && chunks == [] && base == tx
      ensures this.event == event && this.oracle == oracle && this.inserting == inserting
    {
      this.inserting, this.tx, this.event, this.oracle, this.base := inserting, tx, event, oracle, tx;
      chunkIndex, chunks := 0, [];
      assert inserting ==> tx.chunks[event.id := map[]] == tx.chunks;
    }

    method Consume(chunk: bytes, store: Store) returns (ok: bool)
      requires Valid()
      modifies this`tx, this`chunkIndex, this`chunks, store`faults
      ensures ok ==> Valid() && chunks == old(chunks) + [chunk]
      ensures Quiet(old(store.faults)) ==> ok && Quiet(store.faults)
    {
      if !inserting {
        chunks := chunks + [chunk];
        return true;
      }
      var failed := store.Faulty();
      if failed { return false; }
      // The (event_id, chunk_index) key is free.
      assert chunkIndex !in tx.chunks[event.id];
      WithChunksSnoc(base, event, chunks, chunk, oracle);
      tx := tx.(chunks := tx.chunks[event.id := tx.chunks[event.id][chunkIndex := chunk]]);
      if oracle.validUtf8(chunk) {
        failed := store.Faulty();
        if failed { return false; }
        tx := tx.(fts := tx.fts + [FtsRowFor(event, chunk)]);
      }
      chunkIndex := chunkIndex + 1;
      chunks := chunks + [chunk];
      ok := true;
    }
  }

  // ---------- the store ----------

  class Store {
    const oracle: Oracle
    var db: Tables
    var faults: seq<bool>

    constructor (oracle: Oracle, db: Tables, faults: seq<bool>)
      ensures this.oracle == oracle && this.db == db && this.faults == faults
    {
      this.oracle, this.db, this.faults := oracle, db, faults;
    }

    // Does the next statement, or the context check before it, fail?
    method Faulty() returns (failed: bool)
      modifies this`faults
      ensures Quiet(old(faults)) ==> !failed && Quiet(faults)
    {
      failed := faults != [] && faults[0];
      faults := Rest(faults);
    }

    /** One turn of the ingestion loop: a Read into the reused buffer, handed to the sink. */
    method ConsumeRead(source: Stream, buffer: array<byte>, remaining: uint64, sink: ChunkSink)
      returns (r: Result<bytes>)
      requires remaining > 0 && buffer.Length == CHUNK_SIZE
      requires sink.Valid()
      modifies this`faults, source`inbound, source`readPlan, source`consumed, buffer, sink
      ensures |source.inbound| <= |old(source.inbound)|
      ensures r.Err? ==> r.error == Fault || r.error.Stream?
      ensures var n := ReadCount(old(source.inbound), old(source.readPlan), Min(CHUNK_SIZE, remaining as nat));
              var stop := ReadStops(n, ReadError(old(source.readPlan)), remaining as nat);
              && (r.Ok? ==>
                    && stop == None && r.value == old(source.inbound)[..n]
                    && source.inbound == old(source.inbound)[n..] && source.readPlan == Rest(old(source.readPlan))
                    && source.consumed == old(source.consumed) + r.value
                    && sink.Valid() && sink.chunks == old(sink.chunks) + [r.value])
              && (Quiet(old(faults)) ==> Quiet(faults) && if stop.Some? then r == Err(Stream(stop.value)) else r.Ok?)
    {
      var failed := Faulty();
      if failed { return Err(Fault); }
      var n, err := source.Read(buffer, Min(buffer.Length, remaining as int));
      var chunk := buffer[..n];
      if n > 0 {
        var ok := sink.Consume(chunk, this);
        if !ok { return Err(Fault); }
      }
      if n as uint64 < remaining && err.Some? {
        return Err(Stream(if err == Some(Eof) then UnexpectedEof else err.value));
      }
      if n == 0 { return Err(Stream(NoProgress)); }
      r := Ok(chunk);
    }

    /** Streams exactly `declared` bytes through one reused buffer, handing each Read's bytes to the sink. */
    method ConsumeEvidence(source: Stream, declared: uint64, sink: ChunkSink) returns (r: Result<Digest>)
      requires sink.Valid() && sink.chunks == []
      modifies this`faults, source`inbound, source`readPlan, source`consumed, sink
      ensures |source.inbound| <= |old(source.inbound)|
      ensures r.Ok? ==>
                && Deliver(old(source.inbound), old(source.readPlan), declared as nat).Delivered?
                && declared as nat <= |old(source.inbound)|
                && source.inbound == old(source.inbound)[declared..]
                && source.consumed == old(source.consumed) + old(source.inbound)[..declared]
                && r.value == Digest(declared, oracle.sha256(old(source.inbound)[..declared]))
                && Drawn(old(source.inbound), old(source.readPlan), source.inbound, source.readPlan)
      ensures r.Ok? ==>
                sink.Valid() && sink.chunks == Deliver(old(source.inbound), old(source.readPlan), declared as nat).chunks
      ensures r.Err? ==> r.error == Fault || r.error.Stream?
      ensures Quiet(old(faults)) ==> Quiet(faults)
      ensures Quiet(old(faults)) ==>
                match Deliver(old(source.inbound), old(source.readPlan), declared as nat)
                case Delivered(_) => r.Ok?
                case Interrupted(e) => r == Err(Stream(e))
    {
      hide Deliver, WithChunks, Drawn;
      DrawnNot(source.inbound, source.readPlan);
      ghost var all, seen := source.inbound, source.consumed;
      ghost var whole := Deliver(all, source.readPlan, declared as nat);
      var hashed: bytes := [];  // the running hash's input
      var buffer := new byte[CHUNK_SIZE];
      var remaining := declared;
      while remaining > 0
        invariant |hashed| + remaining as nat == declared as nat
        invariant hashed <= all && source.inbound == all[|hashed|..] && source.consumed == seen + hashed
        invariant whole == After(sink.chunks, Deliver(source.inbound, source.readPlan, remaining as nat))
        invariant sink.Valid() && |source.inbound| <= |all|
        invariant Drawn(all, old(source.readPlan), source.inbound, source.readPlan)
        invariant Quiet(old(faults)) ==> Quiet(faults)
        decreases remaining
      {
        DeliverStep(whole, sink.chunks, source.inbound, source.readPlan, remaining as nat);
        ghost var inbound, plan := source.inbound, source.readPlan;
        DrawnRead(inbound, plan, Min(CHUNK_SIZE, remaining as nat));
        var read := ConsumeRead(source, buffer, remaining, sink);
        if read.Err? { return Err(read.error); }
        DrawnOn(all, old(source.readPlan), inbound, plan, source.inbound, source.readPlan);
        hashed := hashed + read.value;
        remaining := remaining - |read.value| as uint64;
      }
      DeliverNothing(source.inbound, source.readPlan);
      assert hashed == all[..declared];
      r := Ok(Digest(declared, oracle.sha256(hashed)));
    }

    /** Re-reads an event's chunk rows in index order and re-hashes them. */
    method StoredEvidence(rows: Rows, declared: uint64) returns (r: Result<Digest>)
      modifies this`faults
      ensures r.Ok? ==> Canonical(rows, declared as nat)
      ensures r.Ok? ==> r.value == Digest(declared, oracle.sha256(Stored(rows, declared as nat)))
      ensures r.Err? ==> r.error == Fault || (r.error == Conflict && !Canonical(rows, declared as nat))
      ensures Quiet(old(faults)) ==> Quiet(faults) && r != Err(Fault)
    {

      hide Scanned, Canonical, Stored, Ascending;
      var failed := Faulty();
      if failed { return Err(Fault); }
      IntOrder();
      var indices := Sorted(rows.Keys, IntLess);
      var hashed: bytes, size: uint64, expected: nat := [], 0, 0;
      ScanStart(rows, declared as nat, indices);
      while expected < |indices|
        invariant expected <= |indices| && size <= declared
        invariant Scanned(rows, declared as nat, indices, expected, size as nat, hashed)
        invariant Quiet(old(faults)) ==> Quiet(faults)
      {
        failed := Faulty();
        if failed { return Err(Fault); }
        var index := indices[expected];
        assert index in rows;
        var chunk := rows[index];
        if index != expected || index > MAX_INT64 as int || !ValidChunk(chunk, index as uint64, declared) {
          ScanStops(rows, declared as nat, indices, expected);
          return Err(Conflict);
        }
        ScanStep(rows, declared as nat, indices, expected, size as nat, hashed);
        hashed, size, expected := hashed + chunk, size + |chunk| as uint64, expected + 1;
      }
      ScanEnd(rows, declared as nat, indices, size as nat, hashed);
      if size != declared { return Err(Conflict); }
      r := Ok(Digest(size, oracle.sha256(hashed)));
    }

    // Size and hash of an event, without its bytes.
    method EventMetadata(id: string) returns (r: Result<Metadata>)
      modifies this`faults
      ensures r.Ok? ==> id in db.events && r.value == Metadata(db.events[id].actual, db.events[id].sha256)
      ensures r == Err(NotFound) ==> id !in db.events
      ensures r.Err? ==> r.error == NotFound || r.error == Fault
      ensures Quiet(old(faults)) ==> Quiet(faults) && r != Err(Fault)
    {
      var failed := Faulty();
      if failed { return Err(Fault); }
      if id !in db.events { return Err(NotFound); }
      r := Ok(Metadata(db.events[id].actual, db.events[id].sha256));
    }

    /** Writes the page at offset: one query for the chunk rows that intersect it, checked row by row. */
    method ReadEventEvidence(id: string, offset: uint64, limit: uint64, destination: Stream) returns (r: Result<ReadResult>)
      requires Schema(db)
      modifies this`faults, destination`outbound, destination`writePlan
      ensures r.Ok? ==> id in db.events && id in db.chunks
      ensures r.Ok? ==> var row := db.events[id];
                PageOutcome(db.chunks[id], row.actual as nat, offset as nat, limit as nat,
                            old(destination.outbound), destination.outbound)
                && r.value == ReadResult(row.actual, StoreRemaining(row.actual, offset, limit), row.sha256)
      ensures r == Err(NotFound) ==> id !in db.events
      ensures r == Err(Conflict) ==> id in db.events && id in db.chunks
      ensures r == Err(Conflict) ==>
                GapOutcome(db.chunks[id], db.events[id].actual as nat, offset as nat, limit as nat,
                           old(destination.outbound), destination.outbound)
      ensures r.Err? && id !in db.events ==> destination.outbound == old(destination.outbound)
      ensures r.Err? && id in db.events && id in db.chunks ==>
                PartialPage(db.chunks[id], db.events[id].actual as nat, offset as nat, limit as nat,
                            old(destination.outbound), destination.outbound)
      ensures Quiet(old(faults)) ==> Quiet(faults)
      ensures Reliable(old(destination.writePlan)) ==> Reliable(destination.writePlan)
      ensures Quiet(old(faults)) && Reliable(old(destination.writePlan)) && id !in db.events ==> r == Err(NotFound)
      ensures Quiet(old(faults)) && Reliable(old(destination.writePlan)) && id in db.events && id in db.chunks ==>
                if Readable(db.chunks[id], db.events[id].actual as nat, offset as nat, limit as nat) then r.Ok?
                else r == Err(Conflict)
    {
      hide Readable, Covered, PartialPage, PageOutcome, GapOutcome;
      if id in db.events {
        NothingRead(db.chunks[id], db.events[id].actual as nat, offset as nat, limit as nat, destination.outbound);
      }
      var failed := Faulty();
      if failed { return Err(Fault); }
      var found := EventMetadata(id);
      if found.Err? { return Err(found.error); }
      var total := found.value.totalSize;
      if offset >= total { return Ok(ReadResult(total, 0, found.value.sha256)); }
      var remaining := total - offset;
      if limit != 0 && limit < remaining { remaining := limit; }
      failed := Faulty();
      if failed { return Err(Fault); }
      var err := ReadRows(db.chunks[id], total, offset, remaining, limit, destination);
      if err.Some? { return Err(err.value); }
      r := Ok(ReadResult(total, remaining, found.value.sha256));
    }

    // The row loop of a page read, over a non-empty range.
    method ReadRows(rows: Rows, total: uint64, offset: uint64, length: uint64, ghost limit: uint64, destination: Stream)
      returns (err: Option<StoreError>)
      requires offset < total
      requires length as nat == PageLength(total as nat, offset as nat, limit as nat) > 0
      modifies this`faults, destination`outbound, destination`writePlan
      ensures err == None ==>
                PageOutcome(rows, total as nat, offset as nat, limit as nat, old(destination.outbound), destination.outbound)
      ensures err == Some(Conflict) ==>
                GapOutcome(rows, total as nat, offset as nat, limit as nat, old(destination.outbound), destination.outbound)
      ensures err != Some(NotFound)
      ensures Quiet(old(faults)) ==> Quiet(faults)
      ensures Reliable(old(destination.writePlan)) ==> Reliable(destination.writePlan)
      ensures err.Some? ==>
                PartialPage(rows, total as nat, offset as nat, limit as nat, old(destination.outbound), destination.outbound)
      ensures Quiet(old(faults)) && Reliable(old(destination.writePlan)) ==>
                if Readable(rows, total as nat, offset as nat, limit as nat) then err == None else err == Some(Conflict)
    {
      hide Readable, Covered, PartialPage, PageOutcome, GapOutcome, Reading, Ascending, InOrder, PageLength, InPage;
      var first, last := offset / CHUNK_SIZE as uint64, (offset + (length - 1)) / CHUNK_SIZE as uint64;
      // Both fit SQLite's integers, so the source's range check on them always passes.
      assert first <= MAX_INT64 && last <= MAX_INT64;
      ghost var page := PageOf(rows, total as nat, offset as nat, limit as nat, destination.outbound);
      var indices := SelectRows(rows, first, last, page);
      var k: nat, expected, remaining := 0, first, length;
      PageStart(page, indices);
      while k < |indices| && remaining > 0
        invariant k <= |indices| && remaining <= length && expected as nat == first as nat + k
        invariant Reading(page, k, length as nat - remaining as nat, destination.outbound)
        invariant InOrder(indices, first as nat, k)
        invariant Quiet(old(faults)) ==> Quiet(faults)
        invariant Reliable(old(destination.writePlan)) ==> Reliable(destination.writePlan)
      {
        var failed := Faulty();
        if failed {
          PartlyRead(page, k, length as nat - remaining as nat, destination.outbound);
          return Some(Fault);
        }
        var available, failure := ReadRow(rows, indices, total, offset, expected, remaining, page, k, destination);
        if failure.Some? { return failure; }
        remaining, expected, k := remaining - available, expected + 1, k + 1;
        InOrderNext(indices, first as nat, k);
      }
      if remaining != 0 {
        PageMissing(page, k, length as nat - remaining as nat, destination.outbound, indices);
        PartlyRead(page, k, length as nat - remaining as nat, destination.outbound);
        return Some(Conflict);
      }
      PageDone(page, k, destination.outbound);
      err := None;
    }

    // The row query of a page read.
    method SelectRows(rows: Rows, first: uint64, last: uint64, ghost page: PageRequest) returns (indices: seq<int>)
      requires rows == page.rows && first as int == page.offset / CHUNK_SIZE
      requires last as int == (page.offset + PageLength(page.total, page.offset, page.limit) - 1) / CHUNK_SIZE
      ensures Ascending(indices, IntLess)
      ensures forall i :: i in indices <==> i in page.rows && InPage(page, i)
    {
      IntOrder();
      var selected := set i | i in rows && first as int <= i <= last as int;
      indices := Sorted(selected, IntLess);
      PageRange(page, first as int, last as int);
    }

    // One turn of the row loop: the next selected row must be the expected one, of its valid length.
    method ReadRow(rows: Rows, indices: seq<int>, total: uint64, offset: uint64, expected: uint64, remaining: uint64,
                   ghost page: PageRequest, k: nat, destination: Stream)
      returns (available: uint64, failure: Option<StoreError>)
      requires page.rows == rows && page.total == total as nat && page.offset == offset as nat
      requires 0 < remaining as nat <= PageLength(page.total, page.offset, page.limit)
      requires Reading(page, k, PageLength(page.total, page.offset, page.limit) - remaining as nat, destination.outbound)
      requires Ascending(indices, IntLess) && InOrder(indices, page.offset / CHUNK_SIZE, k) && k < |indices|
      requires forall i :: i in indices <==> i in page.rows && InPage(page, i)
      requires expected as nat == page.offset / CHUNK_SIZE + k
      modifies destination`outbound, destination`writePlan
      ensures failure == None ==> 0 < available <= remaining && indices[k] == expected as int
      ensures failure == None ==> expected as nat * CHUNK_SIZE < page.total
      ensures failure == None ==>
                Reading(page, k + 1, PageLength(page.total, page.offset, page.limit) - (remaining - available) as nat, destination.outbound)
      ensures failure.Some? ==> failure.value.Stream? || failure.value == Conflict
      ensures failure == Some(Conflict) ==>
                && GapOutcome(page.rows, page.total, page.offset, page.limit, page.before, destination.outbound)
                && !Readable(page.rows, page.total, page.offset, page.limit)
      ensures failure.Some? ==>
                PartialPage(page.rows, page.total, page.offset, page.limit, page.before, destination.outbound)
      ensures Reliable(old(destination.writePlan)) ==>
                (failure == None || failure == Some(Conflict)) && Reliable(destination.writePlan)
    {
      hide Readable, Covered, PartialPage, GapOutcome, Reading, Ascending, InOrder, InPage, ValidRow;
      ghost var done := PageLength(page.total, page.offset, page.limit) - remaining as nat;
      var index := indices[k];
      assert index in indices;
      PageIndex(page, index);
      var chunk := rows[index];
      if index as uint64 != expected || !ValidChunk(chunk, expected, total) {
        RowIsInvalid(page, k, index);
        PageMissing(page, k, done, destination.outbound, indices);
        PartlyRead(page, k, done, destination.outbound);
        return 0, Some(Conflict);
      }
      RowIsValid(page, k, index);
      available, failure := WriteRow(chunk, expected, offset, remaining, page, k, destination);
    }

    // One row of a page read: the part of it that lies in the page.
    method WriteRow(chunk: bytes, index: uint64, offset: uint64, remaining: uint64,
                    ghost page: PageRequest, ghost k: nat, destination: Stream)
      returns (available: uint64, failure: Option<StoreError>)
      requires ValidRow(page, k) && index as nat == page.offset / CHUNK_SIZE + k && chunk == page.rows[index as int]
      requires page.total < 0x1_0000_0000_0000_0000 && page.offset == offset as nat
      requires 0 < remaining as nat <= PageLength(page.total, page.offset, page.limit)
      requires Reading(page, k, PageLength(page.total, page.offset, page.limit) - remaining as nat, destination.outbound)
      modifies destination`outbound, destination`writePlan
      ensures failure == None ==> 0 < available <= remaining
      ensures failure == None ==>
                Reading(page, k + 1, PageLength(page.total, page.offset, page.limit) - (remaining - available) as nat, destination.outbound)
      ensures failure.Some? ==> failure.value.Stream?
      ensures failure.Some? ==>
                PartialPage(page.rows, page.total, page.offset, page.limit, page.before, destination.outbound)
      ensures Reliable(old(destination.writePlan)) ==> failure == None && Reliable(destination.writePlan)
    {
      hide Covered, PartialPage, Reading, Positional;
      ghost var done := PageLength(page.total, page.offset, page.limit) - remaining as nat;
      PagePiece(page, k, done, destination.outbound);
      var chunkStart := index * CHUNK_SIZE as uint64;
      var start := if offset > chunkStart then offset - chunkStart else 0;
      available := |chunk| as uint64 - start;
      if available > remaining { available := remaining; }
      ghost var sofar, piece := destination.outbound, chunk[start..start + available];
      PageStep(page, k, done, sofar, available as nat);
      var err := destination.WriteAll(chunk[start..start + available]);
      if err.Some? {
        ghost var j :| 0 <= j <= |piece| && destination.outbound == sofar + piece[..j];
        PageStep(page, k, done, sofar, j);
        PositionalTake(page.rows, page.offset + done, available as nat, j);
        return available, Some(StoreError.Stream(err.value));
      }
      failure := None;
    }

    /** Appends an event's evidence in one transaction, or re-verifies an event that is already there. */
    method AppendEvent(event: Event, evidence: Stream, declared: uint64, now: Instant) returns (r: Result<AppendResult>)
      requires Schema(db)
      modifies this, evidence`inbound, evidence`readPlan, evidence`consumed
      ensures Schema(db) && |evidence.inbound| <= |old(evidence.inbound)|
      ensures r.Err? || event.id in old(db).events ==> db == old(db)
      ensures r.Ok? ==>
                && declared as nat <= |old(evidence.inbound)|
                && evidence.inbound == old(evidence.inbound)[declared..]
                && evidence.consumed == old(evidence.consumed) + old(evidence.inbound)[..declared]
                && Drawn(old(evidence.inbound), old(evidence.readPlan), evidence.inbound, evidence.readPlan)
                && Deliver(old(evidence.inbound), old(evidence.readPlan), declared as nat).Delivered?
                && r.value == AppendResult(event.id in old(db).events, declared,
                                           oracle.sha256(old(evidence.inbound)[..declared]))
      ensures r.Ok? && event.id !in old(db).events ==>
                Appended(old(db), db, event, now, old(evidence.inbound), old(evidence.readPlan), declared, oracle)
      ensures r.Ok? && event.id in old(db).events ==>
                SameEvidence(db, event.id, Digest(declared, r.value.sha256), oracle)
      ensures r.Err? ==> r.error in {Fault, TooLarge, Conflict} || r.error.Stream?
      ensures r == Err(Conflict) ==>
                event.id in db.events && Deliver(old(evidence.inbound), old(evidence.readPlan), declared as nat).Delivered?
      ensures Quiet(old(faults)) ==> Quiet(faults)
      ensures Quiet(old(faults)) && declared <= MAX_INT64 ==>
                match Deliver(old(evidence.inbound), old(evidence.readPlan), declared as nat)
                case Interrupted(e) => r == Err(Stream(e))
                case Delivered(chunks) =>
                  if event.id in old(db).events && !SameEvidence(old(db), event.id, Digest(declared, oracle.sha256(Join(chunks))), oracle)
                  then r == Err(Conflict) else r.Ok?
    {
      hide Deliver, WithChunks, Canonical;
      var failed := Faulty();
      if failed { return Err(Fault); }
      if declared > MAX_INT64 { return Err(TooLarge); }
      if event.id in db.events {
        r := AppendExisting(event, evidence, declared);
      } else {
        r := AppendNew(event, evidence, declared, now);
      }
      if Deliver(old(evidence.inbound), old(evidence.readPlan), declared as nat).Delivered? {
        DeliveredBytes(old(evidence.inbound), old(evidence.readPlan), declared as nat);
      }
    }

    // The branch for an event ID that has a row.
    method AppendExisting(event: Event, evidence: Stream, declared: uint64) returns (r: Result<AppendResult>)
      requires Schema(db) && event.id in db.events
      modifies this`faults, evidence`inbound, evidence`readPlan, evidence`consumed
      ensures |evidence.inbound| <= |old(evidence.inbound)|
      ensures r.Ok? ==>
                && declared as nat <= |old(evidence.inbound)|
                && evidence.inbound == old(evidence.inbound)[declared..]
                && evidence.consumed == old(evidence.consumed) + old(evidence.inbound)[..declared]
                && Drawn(old(evidence.inbound), old(evidence.readPlan), evidence.inbound, evidence.readPlan)
                && Deliver(old(evidence.inbound), old(evidence.readPlan), declared as nat).Delivered?
                && r.value == AppendResult(true, declared, oracle.sha256(old(evidence.inbound)[..declared]))
                && SameEvidence(db, event.id, Digest(declared, r.value.sha256), oracle)
      ensures r.Err? ==> r.error == Fault || r.error == Conflict || r.error.Stream?
      ensures r == Err(Conflict) ==> Deliver(old(evidence.inbound), old(evidence.readPlan), declared as nat).Delivered?
      ensures Quiet(old(faults)) ==> Quiet(faults)
      ensures Quiet(old(faults)) ==>
                match Deliver(old(evidence.inbound), old(evidence.readPlan), declared as nat)
                case Interrupted(e) => r == Err(Stream(e))
                case Delivered(_) =>
                  && declared as nat <= |old(evidence.inbound)|
                  && if SameEvidence(db, event.id, Digest(declared, oracle.sha256(old(evidence.inbound)[..declared])), oracle)
                     then r.Ok? else r == Err(Conflict)
    {
      hide Deliver, WithChunks, Canonical;
      var sink := new ChunkSink(false, db, event, oracle);
      var sent := ConsumeEvidence(evidence, declared, sink);
      if sent.Err? { return Err(sent.error); }
      var row := db.events[event.id];
      var stored := StoredEvidence(db.chunks[event.id], row.declared);
      if stored.Err? || stored.value != Digest(row.actual, row.sha256) || sent.value != stored.value {
        return Err(Conflict);
      }
      r := Ok(AppendResult(true, sent.value.size, sent.value.sha256));
    }

    // The branch for a new event: insert, stream, set size and hash, commit.
    method AppendNew(event: Event, evidence: Stream, declared: uint64, now: Instant) returns (r: Result<AppendResult>)
      requires Schema(db) && event.id !in db.events
      modifies this, evidence`inbound, evidence`readPlan, evidence`consumed
      ensures Schema(db) && |evidence.inbound| <= |old(evidence.inbound)|
      ensures r.Err? ==> db == old(db)
      ensures r.Ok? ==>
                && declared as nat <= |old(evidence.inbound)|
                && evidence.inbound == old(evidence.inbound)[declared..]
                && evidence.consumed == old(evidence.consumed) + old(evidence.inbound)[..declared]
                && Drawn(old(evidence.inbound), old(evidence.readPlan), evidence.inbound, evidence.readPlan)
                && Deliver(old(evidence.inbound), old(evidence.readPlan), declared as nat).Delivered?
                && r.value == AppendResult(false, declared, oracle.sha256(old(evidence.inbound)[..declared]))
                && Appended(old(db), db, event, now, old(evidence.inbound), old(evidence.readPlan), declared, oracle)
      ensures r.Err? ==> r.error == Fault || r.error.Stream?
      ensures Quiet(old(faults)) ==> Quiet(faults)
      ensures Quiet(old(faults)) ==>
                match Deliver(old(evidence.inbound), old(evidence.readPlan), declared as nat)
                case Interrupted(e) => r == Err(Stream(e))
                case Delivered(_) => r.Ok?
    {
      hide Deliver, Canonical, WithChunks, WithEvent;
      var received := Received(event, now);
      var failed := Faulty();
      if failed { return Err(Fault); }
      var tx := db.(events := db.events[event.id := EventRow(received, declared, 0, "")],
                    chunks := db.chunks[event.id := map[]]);
      var sink := new ChunkSink(true, tx, received, oracle);
      var sent := ConsumeEvidence(evidence, declared, sink);
      if sent.Err? { return Err(sent.error); }
      failed := Faulty();
      if failed { return Err(Fault); }
      // The update trigger lets only a row without a hash change.
      AppendedTables(db, received, declared, sink.chunks, oracle);
      tx := sink.tx;
      assert tx.events[event.id].sha256 == "";
      tx := tx.(events := tx.events[event.id := EventRow(received, declared, sent.value.size, sent.value.sha256)]);
      failed := Faulty();
      if failed { return Err(Fault); }
      DeliveredBytes(old(evidence.inbound), old(evidence.readPlan), declared as nat);
      db := tx;
      r := Ok(AppendResult(false, sent.value.size, sent.value.sha256));
    }
  }

  // ---------- page reads ----------

  // Every index from..to has a row of its valid length.
  ghost predicate Covered(rows: Rows, total: nat, from: nat, to: nat) {
    forall i :: from <= i < to ==> i in rows && ValidAt(rows[i], i, total)
  }

  // Every chunk that intersects the page is present with its valid length.
  ghost predicate Readable(rows: Rows, total: nat, offset: nat, limit: nat) {
    var n := PageLength(total, offset, limit);
    n == 0 || Covered(rows, total, offset / CHUNK_SIZE, (offset + n - 1) / CHUNK_SIZE + 1)
  }

  // A complete read: the page's positions, all of them.
  ghost predicate PageOutcome(rows: Rows, total: nat, offset: nat, limit: nat, before: bytes, after: bytes) {
    && Readable(rows, total, offset, limit)
    && after == before + Positional(rows, offset, offset + PageLength(total, offset, limit))
  }

  // A read that stopped at the first chunk that is missing or has the wrong length, after all before it.
  ghost predicate GapOutcome(rows: Rows, total: nat, offset: nat, limit: nat, before: bytes, after: bytes) {
    var end := offset + PageLength(total, offset, limit);
    exists gap: nat ::
      && offset < end && offset / CHUNK_SIZE <= gap <= (end - 1) / CHUNK_SIZE
      && Covered(rows, total, offset / CHUNK_SIZE, gap) && !Covered(rows, total, gap, gap + 1)
      && after == before + Positional(rows, offset, Max(offset, gap * CHUNK_SIZE))
  }

  // A read that stopped anywhere: a prefix of the page, all of it from chunks that were checked.
  ghost predicate PartialPage(rows: Rows, total: nat, offset: nat, limit: nat, before: bytes, after: bytes) {
    exists stop: nat ::
      && offset <= stop <= offset + PageLength(total, offset, limit)
      && (offset < stop ==> Covered(rows, total, offset / CHUNK_SIZE, (stop - 1) / CHUNK_SIZE + 1))
      && after == before + Positional(rows, offset, stop)
  }

  lemma NothingRead(rows: Rows, total: nat, offset: nat, limit: nat, before: bytes)
    ensures PartialPage(rows, total, offset, limit, before, before)
    ensures offset >= total ==> Readable(rows, total, offset, limit) && PageOutcome(rows, total, offset, limit, before, before)
  {
    assert before == before + Positional(rows, offset, offset);
  }

  datatype PageRequest = PageOf(rows: Rows, total: nat, offset: nat, limit: nat, before: bytes)

  // After k rows, `done` bytes of the page are out; they end at a row boundary or at the page's end.
  ghost predicate Reading(page: PageRequest, k: nat, done: nat, outbound: bytes) {
    var first, end := page.offset / CHUNK_SIZE, page.offset + PageLength(page.total, page.offset, page.limit);
    var position := page.offset + done;
    && position <= end
    && (position < end ==> position == Max(page.offset, (first + k) * CHUNK_SIZE))
    && (position == end ==> first + k == (end - 1) / CHUNK_SIZE + 1)
    && Covered(page.rows, page.total, first, first + k)
    && outbound == page.before + Positional(page.rows, page.offset, position)
  }

  lemma PageStart(page: PageRequest, indices: seq<int>)
    requires PageLength(page.total, page.offset, page.limit) > 0
    ensures Reading(page, 0, 0, page.before)
    ensures InOrder(indices, page.offset / CHUNK_SIZE, 0)
  {
    assert page.before == page.before + Positional(page.rows, page.offset, page.offset);
  }

  // What the next row contributes, and that any part of it keeps the output a prefix of the page.
  lemma PageStep(page: PageRequest, k: nat, done: nat, outbound: bytes, j: nat)
    requires done < PageLength(page.total, page.offset, page.limit) && Reading(page, k, done, outbound)
    requires ValidRow(page, k) && j <= Available(page, k, done)
    ensures var position := page.offset + done;
            var piece := Positional(page.rows, position, position + j);
            && PartialPage(page.rows, page.total, page.offset, page.limit, page.before, outbound + piece)
            && (j == Available(page, k, done) ==> Reading(page, k + 1, done + j, outbound + piece))
  {
    hide Covered, Available, ValidRow, PartialPage, Positional;
    var position := page.offset + done;
    PrefixCovered(page, k, done, outbound, j);
    PositionalAppend(page.rows, page.offset, position, position + j);
    Reassociate(page.before, Positional(page.rows, page.offset, position), Positional(page.rows, position, position + j));
    assert outbound == page.before + Positional(page.rows, page.offset, position);
    if j == Available(page, k, done) {
      PageBoundary(page, k, done, outbound);
    }
    hide Reading;
  }

  ghost predicate ValidRow(page: PageRequest, k: nat) {
    var index := page.offset / CHUNK_SIZE + k;
    index in page.rows && ValidAt(page.rows[index], index, page.total)
  }

  // How much of the page the next row holds.
  ghost function Available(page: PageRequest, k: nat, done: nat): (n: int)
    requires ValidRow(page, k)
  {
    var index := page.offset / CHUNK_SIZE + k;
    Min(|page.rows[index]| - Max(page.offset - index * CHUNK_SIZE, 0),
        PageLength(page.total, page.offset, page.limit) - done)
  }

  lemma PageBoundary(page: PageRequest, k: nat, done: nat, outbound: bytes)
    requires done < PageLength(page.total, page.offset, page.limit) && Reading(page, k, done, outbound)
    requires ValidRow(page, k)
    ensures var n := Available(page, k, done);
            n > 0 && Reading(page, k + 1, done + n,
                             page.before + Positional(page.rows, page.offset, page.offset + done + n))
  {
  }

  // The slice the source cuts from the row is the next stretch of the page.
  lemma PagePiece(page: PageRequest, k: nat, done: nat, outbound: bytes)
    requires done < PageLength(page.total, page.offset, page.limit) && Reading(page, k, done, outbound)
    requires ValidRow(page, k)
    ensures var index := page.offset / CHUNK_SIZE + k;
            var start, n := Max(page.offset - index * CHUNK_SIZE, 0), Available(page, k, done);
            var position := page.offset + done;
            && 0 < n && start + n <= |page.rows[index]|
            && page.rows[index][start..start + n] == Positional(page.rows, position, position + n)
  {
    var index := page.offset / CHUNK_SIZE + k;
    var start, n := Max(page.offset - index * CHUNK_SIZE, 0), Available(page, k, done);
    assert page.offset + done == index * CHUNK_SIZE + start;
    PositionalInRow(page.rows, index, start, n);
  }

  lemma PrefixCovered(page: PageRequest, k: nat, done: nat, outbound: bytes, j: nat)
    requires done < PageLength(page.total, page.offset, page.limit) && Reading(page, k, done, outbound)
    requires ValidRow(page, k) && j <= Available(page, k, done)
    ensures PartialPage(page.rows, page.total, page.offset, page.limit, page.before,
                        page.before + Positional(page.rows, page.offset, page.offset + done + j))
  {
    var first, stop := page.offset / CHUNK_SIZE, page.offset + done + j;
    assert Covered(page.rows, page.total, first, first + k + 1);
    assert page.offset < stop ==> (stop - 1) / CHUNK_SIZE <= first + k;
  }

  lemma PartlyRead(page: PageRequest, k: nat, done: nat, outbound: bytes)
    requires PageLength(page.total, page.offset, page.limit) > 0 && Reading(page, k, done, outbound)
    ensures PartialPage(page.rows, page.total, page.offset, page.limit, page.before, outbound)
  {
    var first, stop := page.offset / CHUNK_SIZE, page.offset + done;
    if page.offset < stop {
      assert (stop - 1) / CHUNK_SIZE < first + k;
    }
  }

  lemma PageGap(page: PageRequest, k: nat, done: nat, outbound: bytes)
    requires done < PageLength(page.total, page.offset, page.limit) && Reading(page, k, done, outbound)
    requires var index := page.offset / CHUNK_SIZE + k;
             index !in page.rows || !ValidAt(page.rows[index], index, page.total)
    ensures GapOutcome(page.rows, page.total, page.offset, page.limit, page.before, outbound)
    ensures !Readable(page.rows, page.total, page.offset, page.limit)
  {
    var gap := page.offset / CHUNK_SIZE + k;
    var end := page.offset + PageLength(page.total, page.offset, page.limit);
    assert gap <= (end - 1) / CHUNK_SIZE;
    assert !Covered(page.rows, page.total, gap, gap + 1);
  }

  lemma PageDone(page: PageRequest, k: nat, outbound: bytes)
    requires PageLength(page.total, page.offset, page.limit) > 0
    requires Reading(page, k, PageLength(page.total, page.offset, page.limit), outbound)
    ensures PageOutcome(page.rows, page.total, page.offset, page.limit, page.before, outbound)
    ensures Readable(page.rows, page.total, page.offset, page.limit)
  {
  }

  // The first k selected indices are consecutive.
  ghost predicate InOrder(indices: seq<int>, first: nat, k: nat) {
    k <= |indices| && forall j :: 0 <= j < k ==> indices[j] == first + j
  }

  lemma InOrderNext(indices: seq<int>, first: nat, k: nat)
    requires 0 < k <= |indices| && InOrder(indices, first, k - 1) && indices[k - 1] == first + k - 1
    ensures InOrder(indices, first, k)
  {
  }

  // The row at the current index is not among those selected, or not of its valid length.
  lemma PageMissing(page: PageRequest, k: nat, done: nat, outbound: bytes, indices: seq<int>)
    requires done < PageLength(page.total, page.offset, page.limit) && Reading(page, k, done, outbound)
    requires Ascending(indices, IntLess) && InOrder(indices, page.offset / CHUNK_SIZE, k)
    requires forall i :: i in indices <==> i in page.rows && InPage(page, i)
    requires k == |indices| || indices[k] != page.offset / CHUNK_SIZE + k || !ValidRow(page, k)
    ensures GapOutcome(page.rows, page.total, page.offset, page.limit, page.before, outbound)
    ensures !Readable(page.rows, page.total, page.offset, page.limit)
  {
    var first, end := page.offset / CHUNK_SIZE, page.offset + PageLength(page.total, page.offset, page.limit);
    assert first + k <= (end - 1) / CHUNK_SIZE;
    Missing(indices, page.rows, first, (end - 1) / CHUNK_SIZE, k);
    PageGap(page, k, done, outbound);
  }

  // The chunk indices that a non-empty page intersects.
  ghost predicate InPage(page: PageRequest, index: int) {
    page.offset / CHUNK_SIZE <= index
      <= (page.offset + PageLength(page.total, page.offset, page.limit) - 1) / CHUNK_SIZE
  }

  lemma PageRange(page: PageRequest, first: int, last: int)
    requires first == page.offset / CHUNK_SIZE
    requires last == (page.offset + PageLength(page.total, page.offset, page.limit) - 1) / CHUNK_SIZE
    ensures forall i :: InPage(page, i) <==> first <= i <= last
  {
  }

  lemma PageIndex(page: PageRequest, index: int)
    requires InPage(page, index)
    ensures 0 <= index && index * CHUNK_SIZE < page.offset + PageLength(page.total, page.offset, page.limit)
    ensures PageLength(page.total, page.offset, page.limit) > 0 ==> index * CHUNK_SIZE < page.total
  {
  }

  lemma RowIsValid(page: PageRequest, k: nat, index: int)
    requires index == page.offset / CHUNK_SIZE + k && index in page.rows && ValidAt(page.rows[index], index, page.total)
    ensures ValidRow(page, k)
  {
  }

  lemma RowIsInvalid(page: PageRequest, k: nat, index: int)
    requires index in page.rows
    requires index != page.offset / CHUNK_SIZE + k || !ValidAt(page.rows[index], index, page.total)
    ensures index == page.offset / CHUNK_SIZE + k ==> !ValidRow(page, k)
  {
  }

  // A selection that skips or ends before an index of its range has no row for it.
  lemma Missing(indices: seq<int>, rows: Rows, first: nat, last: nat, k: nat)
    requires Ascending(indices, IntLess) && InOrder(indices, first, k)
    requires forall i :: i in indices <==> i in rows && first <= i <= last
    requires first + k <= last
    ensures k == |indices| || indices[k] != first + k ==> first + k !in rows
  {
    if first + k in rows {
      assert first + k in indices;
      var m :| 0 <= m < |indices| && indices[m] == first + k;
      assert k <= m;
      assert indices[k] in indices;
      if k < m {
        assert IntLess(indices[k], indices[m]);
        if k > 0 { Consecutive(indices, k); }
        assert false;
      }
    }
  }

  lemma Consecutive(indices: seq<int>, k: nat)
    requires Ascending(indices, IntLess) && 0 < k < |indices|
    ensures indices[k - 1] < indices[k]
  {
    assert IntLess(indices[k - 1], indices[k]);
  }

  // Inserting the row, its chunks, and then its size and hash, is one insertion of the finished event.
  lemma AppendedTables(db: Tables, event: Event, declared: uint64, chunks: seq<bytes>, o: Oracle)
    requires Schema(db)
    ensures Schema(WithEvent(db, event, declared, chunks, o))
    ensures var started := db.(events := db.events[event.id := EventRow(event, declared, 0, "")],
                               chunks := db.chunks[event.id := map[]]);
            var tx := WithChunks(started, event, chunks, o);
            var row := EventRow(event, declared, declared, o.sha256(Join(chunks)));
            && event.id in tx.events && tx.events[event.id] == EventRow(event, declared, 0, "")
            && tx.(events := tx.events[event.id := row]) == WithEvent(db, event, declared, chunks, o)
  {
    var id := event.id;
    var started := db.events[id := EventRow(event, declared, 0, "")];
    var row := EventRow(event, declared, declared, o.sha256(Join(chunks)));
    assert started[id := row] == db.events[id := row];
    assert db.chunks[id := map[]][id := RowsOf(chunks)] == db.chunks[id := RowsOf(chunks)];
  }

  // The committed effect of a successful append of a new event: its chunk rows are what the reader
  // delivered, they add up to exactly the declared bytes, and size and hash are those of the bytes.
  ghost predicate Appended(before: Tables, after: Tables, event: Event, now: Instant,
                           inbound: bytes, plan: seq<ReadStep>, declared: uint64, o: Oracle)
  {
    && Deliver(inbound, plan, declared as nat).Delivered?
    && declared as nat <= |inbound|
    && var chunks := Deliver(inbound, plan, declared as nat).chunks;
    && Join(chunks) == inbound[..declared]
    && after == WithEvent(before, Received(event, now), declared, chunks, o)
  }

  // The first k rows in index order are 0..k, each valid; their size and bytes so far.
  ghost predicate Scanned(rows: Rows, total: nat, indices: seq<int>, k: nat, size: nat, hashed: bytes) {
    && k <= |indices|
    && (forall i :: i in indices <==> i in rows)
    && (forall i :: 0 <= i < k ==> indices[i] == i && i in rows && ValidAt(rows[i], i, total))
    && size == Min(k * CHUNK_SIZE, total)
    && hashed == Join(RowSeq(rows, k))
  }

  lemma ScanStart(rows: Rows, total: nat, indices: seq<int>)
    requires forall i :: i in indices <==> i in rows
    ensures Scanned(rows, total, indices, 0, 0, [])
  {
  }

  lemma ScanStep(rows: Rows, total: nat, indices: seq<int>, k: nat, size: nat, hashed: bytes)
    requires Scanned(rows, total, indices, k, size, hashed)
    requires k < |indices| && indices[k] == k && k in rows && ValidAt(rows[k], k, total)
    ensures Scanned(rows, total, indices, k + 1, size + |rows[k]|, hashed + rows[k])
    ensures size + |rows[k]| <= total
  {
    JoinSnoc(RowSeq(rows, k), rows[k]);
    assert RowSeq(rows, k) + [rows[k]] == RowSeq(rows, k + 1);
  }

  lemma ScanStops(rows: Rows, total: nat, indices: seq<int>, k: nat)
    requires Ascending(indices, IntLess) && (forall i :: i in indices <==> i in rows) && k < |indices|
    requires indices[k] != k || k > MAX_INT64 as int || k !in rows || !ValidAt(rows[k], k, total)
    requires total <= MAX_INT64 as nat * CHUNK_SIZE
    ensures !Canonical(rows, total)
  {
    CanonicalIndex(rows, total, indices, k);
  }

  lemma ScanEnd(rows: Rows, total: nat, indices: seq<int>, size: nat, hashed: bytes)
    requires Scanned(rows, total, indices, |indices|, size, hashed)
    ensures Canonical(rows, total) <==> size == total
    ensures Canonical(rows, total) ==> hashed == Stored(rows, total)
  {
    CanonicalBySize(rows, indices, total);
  }

  // A canonical table lists its indices as 0, 1, 2, ... with the right lengths.
  lemma CanonicalIndex(rows: Rows, total: nat, indices: seq<int>, k: nat)
    requires Ascending(indices, IntLess) && (forall i :: i in indices <==> i in rows) && k < |indices|
    ensures Canonical(rows, total) ==> indices[k] == k && ValidAt(rows[indices[k]], k, total)
    ensures Canonical(rows, total) ==> k < ChunkCount(total)
  {
    if Canonical(rows, total) {
      IntOrder();
      var n := ChunkCount(total);
      var plain := seq(n, i => i);
      forall i ensures i in indices <==> i in plain {
        if 0 <= i < n { assert plain[i] == i; }
      }
      AscendingUnique(indices, plain, IntLess);
      assert indices[k] in rows;
    }
  }

  // Valid consecutive rows are the whole canonical table exactly when their sizes add up.
  lemma CanonicalBySize(rows: Rows, indices: seq<int>, total: nat)
    requires forall i :: i in indices <==> i in rows
    requires forall i :: 0 <= i < |indices| ==> indices[i] == i && ValidAt(rows[i], i, total)
    ensures Canonical(rows, total) <==> Min(|indices| * CHUNK_SIZE, total) == total
    ensures Canonical(rows, total) ==> |indices| == ChunkCount(total)
  {
    var n := |indices|;
    forall i ensures i in rows <==> 0 <= i < n {
      assert 0 <= i < n ==> indices[i] == i;
    }
    assert n > 0 ==> ValidAt(rows[n - 1], n - 1, total);
    assert n !in rows;
  }
}
