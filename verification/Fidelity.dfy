/** What stored evidence is worth: when a committed event serves its exact bytes, when a retry is
    recognised, and when an attempt can be completed. All three turn on one condition, that every
    Read of the ingestion filled the buffer or finished the payload. */
module Fidelity {
  import opened Bytes
  import opened Evidence
  import opened Tables
  import opened Storage
  import opened Streams

  // The size of chunks as an append delivers them.
  ghost predicate Nonempty(chunks: seq<bytes>) { forall c :: c in chunks ==> 0 < |c| <= CHUNK_SIZE }

  // Every page of the table is readable and is the page of the payload.
  ghost predicate ServesExactly(rows: Rows, payload: bytes) {
    forall offset: nat, limit: nat ::
      && Readable(rows, |payload|, offset, limit)
      && Positional(rows, offset, offset + PageLength(|payload|, offset, limit)) == Page(payload, offset, limit)
  }

  lemma CanonicalServes(payload: bytes)
    ensures ServesExactly(RowsOf(Split(payload)), payload)
  {
    var rows := RowsOf(Split(payload));
    forall offset: nat, limit: nat
      ensures Readable(rows, |payload|, offset, limit)
      ensures Positional(rows, offset, offset + PageLength(|payload|, offset, limit)) == Page(payload, offset, limit)
    {
      var n := PageLength(|payload|, offset, limit);
      CanonicalReadable(payload, offset, limit);
      if n > 0 {
        PositionalOfCanonical(payload, offset, offset + n);
      }
    }
  }

  lemma CanonicalReadable(payload: bytes, offset: nat, limit: nat)
    ensures Readable(RowsOf(Split(payload)), |payload|, offset, limit)
  {
    var n := PageLength(|payload|, offset, limit);
    if n > 0 {
      forall i | offset / CHUNK_SIZE <= i < (offset + n - 1) / CHUNK_SIZE + 1
        ensures i in RowsOf(Split(payload)) && ValidAt(RowsOf(Split(payload))[i], i, |payload|)
      {
        assert RowsOf(Split(payload))[i] == Piece(payload, i);
      }
    }
  }

  // A table that lets its whole payload be read has a valid row at every index of the payload.
  lemma CoveredChunks(chunks: seq<bytes>, total: nat)
    requires total > 0 && Readable(RowsOf(chunks), total, 0, 0)
    ensures ChunkCount(total) <= |chunks|
    ensures forall i :: 0 <= i < ChunkCount(total) ==> ValidAt(chunks[i], i, total)
  {
    var rows, n := RowsOf(chunks), ChunkCount(total);
    assert Covered(rows, total, 0, n);
    assert n - 1 in rows;
    forall i | 0 <= i < n ensures ValidAt(chunks[i], i, total) {
      assert i in rows && rows[i] == chunks[i];
    }
  }

  lemma ReadableIsCanonical(chunks: seq<bytes>)
    requires Nonempty(chunks) && Readable(RowsOf(chunks), |Join(chunks)|, 0, 0)
    ensures chunks == Split(Join(chunks))
  {
    hide Join, Readable, RowsOf;
    var total := |Join(chunks)|;
    NothingJoined(chunks);
    if total > 0 {
      CoveredChunks(chunks, total);
      var front, rest := chunks[..ChunkCount(total)], chunks[ChunkCount(total)..];
      CanonicalLengthsAreSplit(front, total);
      assert chunks == front + rest;
      JoinAppend(front, rest);
      NothingJoined(rest);
      assert front == chunks;
    }
  }

  lemma NothingJoined(chunks: seq<bytes>)
    requires Nonempty(chunks)
    ensures |Join(chunks)| == 0 ==> chunks == []
  {
    if chunks != [] {
      assert chunks[|chunks| - 1] in chunks;
    }
  }

  // Main result on reads: the rows of a committed append serve every page exactly if and only if
  // every Read was full; and if not, reading the event in full already fails.
  lemma ExactIffFullReads(chunks: seq<bytes>)
    requires Nonempty(chunks)
    ensures ServesExactly(RowsOf(chunks), Join(chunks)) <==> FullReads(chunks, |Join(chunks)|)
    ensures Readable(RowsOf(chunks), |Join(chunks)|, 0, 0) <==> FullReads(chunks, |Join(chunks)|)
  {
    CanonicalIffFullReads(chunks);
    if FullReads(chunks, |Join(chunks)|) {
      CanonicalServes(Join(chunks));
    }
    if Readable(RowsOf(chunks), |Join(chunks)|, 0, 0) {
      ReadableIsCanonical(chunks);
    }
  }

  // What a page read returns, in terms of the payload.
  lemma PageReadIsPage(payload: bytes, offset: nat, limit: nat, before: bytes, after: bytes)
    requires PageOutcome(RowsOf(Split(payload)), |payload|, offset, limit, before, after)
    ensures after == before + Page(payload, offset, limit)
  {
    CanonicalServes(payload);
    assert Readable(RowsOf(Split(payload)), |payload|, offset, limit);
  }

  // Reads of 100, 32768 and 32768 bytes commit, and then the page of ten bytes at offset 32768
  // passes every check and is the payload from byte 100: a short read is not always noticed.
  lemma ShortReadExample() returns (payload: bytes, plan: seq<ReadStep>)
    ensures |payload| == 65636
    ensures Deliver(payload, plan, 65636).Delivered?
    ensures var rows := RowsOf(Deliver(payload, plan, 65636).chunks);
            && Readable(rows, 65636, CHUNK_SIZE, 10)
            && Positional(rows, CHUNK_SIZE, CHUNK_SIZE + 10) == payload[100..110]
            && Page(payload, CHUNK_SIZE, 10) != payload[100..110]
            && !Readable(rows, 65636, 0, 0)
  {
    payload := seq(65636, i => if i < 1000 then 1 else 0);
    var step := ReadStep(CHUNK_SIZE, None);
    plan := [ReadStep(100, None), step, step];
    var a, b, c := payload[..100], payload[100..32868], payload[32868..];
    ShortReadDelivery(payload, plan);
    var chunks := [a, b, c];
    var rows := RowsOf(chunks);
    assert rows[1] == b && ValidAt(b, 1, 65636);
    PositionalInRow(rows, 1, 0, 10);
    assert b[0..10] == payload[100..110];
    assert Page(payload, CHUNK_SIZE, 10)[0] != payload[100..110][0];
    assert rows[0] == a && !ValidAt(a, 0, 65636);
  }

  lemma ShortReadDelivery(payload: bytes, plan: seq<ReadStep>)
    requires |payload| == 65636
    requires plan == [ReadStep(100, None), ReadStep(CHUNK_SIZE, None), ReadStep(CHUNK_SIZE, None)]
    ensures Deliver(payload, plan, 65636) == Delivered([payload[..100], payload[100..32868], payload[32868..]])
  {
    var rest, last := payload[100..], payload[32868..];
    assert rest[..32768] == payload[100..32868] && rest[32768..] == last && last[..32768] == last;
    assert plan[1..] == [ReadStep(CHUNK_SIZE, None), ReadStep(CHUNK_SIZE, None)];
    assert Deliver(last, [ReadStep(CHUNK_SIZE, None)], 32768) == Delivered([last]) by {
      assert Deliver(last[32768..], [], 0) == Delivered([]);
      assert [last] + [] == [last];
    }
    assert plan[1..][1..] == [ReadStep(CHUNK_SIZE, None)];
    assert Deliver(rest, plan[1..], 65536) == Delivered([payload[100..32868], last]) by {
      assert [rest[..32768]] + [last] == [payload[100..32868], last];
    }
    assert [payload[..100]] + [payload[100..32868], last] == [payload[..100], payload[100..32868], last];
  }

  // ---------- retries and completion ----------

  // The bytes that a canonical table of delivered chunks stands for are the delivered bytes.
  lemma StoredOfChunks(chunks: seq<bytes>)
    requires Canonical(RowsOf(chunks), |Join(chunks)|)
    ensures Stored(RowsOf(chunks), |Join(chunks)|) == Join(chunks)
  {
    CanonicalIffSplit(chunks);
    assert |Split(Join(chunks))| == ChunkCount(|Join(chunks)|);
    RowSeqOfRowsOf(chunks);
  }

  // A repeated append is recognised as already present if and only if the first append's Reads were
  // full and the sizes and hashes agree. So the same bytes are not always recognised, and the
  // condition under which they are is exactly the first append's.
  lemma RetryIffFullReads(db: Tables, id: string, chunks: seq<bytes>, again: bytes, o: Oracle)
    requires id in db.events && id in db.chunks && Nonempty(chunks) && db.chunks[id] == RowsOf(chunks)
    requires |Join(chunks)| < 0x1_0000_0000_0000_0000 && |again| < 0x1_0000_0000_0000_0000
    requires db.events[id].declared as nat == db.events[id].actual as nat == |Join(chunks)|
    requires db.events[id].sha256 == o.sha256(Join(chunks))
    ensures SameEvidence(db, id, Digest(|again| as uint64, o.sha256(again)), o) <==>
              && FullReads(chunks, |Join(chunks)|)
              && |again| == |Join(chunks)| && o.sha256(again) == o.sha256(Join(chunks))
  {
    CanonicalIffFullReads(chunks);
    CanonicalIffSplit(chunks);
    if Canonical(RowsOf(chunks), |Join(chunks)|) {
      StoredOfChunks(chunks);
    }
  }

  // Unless the two payloads collide, equal bytes are idempotent and different bytes conflict.
  lemma RetryTellsBytesApart(db: Tables, id: string, chunks: seq<bytes>, again: bytes, o: Oracle)
    requires id in db.events && id in db.chunks && Nonempty(chunks) && db.chunks[id] == RowsOf(chunks)
    requires |Join(chunks)| < 0x1_0000_0000_0000_0000 && |again| < 0x1_0000_0000_0000_0000
    requires db.events[id].declared as nat == db.events[id].actual as nat == |Join(chunks)|
    requires db.events[id].sha256 == o.sha256(Join(chunks))
    requires FullReads(chunks, |Join(chunks)|)
    requires o.sha256(again) == o.sha256(Join(chunks)) ==> again == Join(chunks)
    ensures SameEvidence(db, id, Digest(|again| as uint64, o.sha256(again)), o) <==> again == Join(chunks)
  {
    RetryIffFullReads(db, id, chunks, again, o);
  }

  // An attempt whose event was just appended can be completed if and only if every Read was full.
  lemma CompletableIffFullReads(db: Tables, attempt: Attempt, chunks: seq<bytes>, o: Oracle)
    requires Nonempty(chunks) && |Join(chunks)| == attempt.declared as nat && ProperHash(o)
    ensures Verified(WithEvent(db, attempt.event, attempt.declared, chunks, o), attempt, o)
            <==> FullReads(chunks, |Join(chunks)|)
  {
    CanonicalIffFullReads(chunks);
    CanonicalIffSplit(chunks);
    if Canonical(RowsOf(chunks), |Join(chunks)|) {
      StoredOfChunks(chunks);
    }
    var after := WithEvent(db, attempt.event, attempt.declared, chunks, o);
    assert after.chunks[attempt.event.id] == RowsOf(chunks);
  }
}
