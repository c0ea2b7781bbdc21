/** The rows the daemon keeps: events, their chunks, the full-text projection and the
    capture-attempt journal, with what the schema itself guarantees about them. */
module Tables {
  import opened Bytes
  import opened Evidence
  import Streams

  // What the model leaves abstract: SHA-256 in hex, utf8.Valid, and full-text MATCH.
  datatype Oracle = Oracle(sha256: bytes -> string, validUtf8: bytes -> bool, matches: (string, bytes) -> bool)

  // A UTC instant, or Go's zero time.
  datatype Instant = ZeroTime | At(nanos: int)

  datatype Event = Event(id: string, eventType: string, project: string, session: string, exchange: string,
                         encoding: string, protocolVersion: int, sequence: int, occurredAt: Instant)

  datatype EventRow = EventRow(event: Event, declared: uint64, actual: uint64, sha256: string)

  datatype FtsRow = FtsRow(id: string, project: string, session: string, exchange: string, content: bytes)

  datatype Status = Unset | Pending | Completed | Incomplete
  datatype Stage = HeaderStage | AppendStage | OtherStage

  datatype Attempt = Attempt(id: string, event: Event, declared: uint64, status: Status,
                             completedAt: Option<Instant>, failureStage: Option<Stage>)

  datatype Tables = Tables(events: map<string, EventRow>, chunks: map<string, Rows>, fts: seq<FtsRow>,
                           attempts: map<string, Attempt>)

  const EMPTY := Tables(map[], map[], [], map[])

  datatype StoreError = NotFound | Conflict | TooLarge | Fault | BadLimit | Stream(err: Streams.IoError)

  datatype Result<+T> = Ok(value: T) | Err(error: StoreError)

  // Primary and foreign keys.
  ghost predicate Schema(db: Tables) {
    && db.chunks.Keys == db.events.Keys
    && (forall id :: id in db.events ==> db.events[id].event.id == id)
    && (forall id :: id in db.attempts ==> db.attempts[id].id == id)
  }

  // ---------- the full-text projection ----------

  function FtsRowFor(event: Event, content: bytes): FtsRow {
    FtsRow(event.id, event.project, event.session, event.exchange, content)
  }

  // The projection rows of one event: one for each valid UTF-8 chunk, in chunk order.
  function Indexed(o: Oracle, event: Event, chunks: seq<bytes>): seq<FtsRow> {
    if chunks == [] then []
    else
      var k := |chunks| - 1;
      Indexed(o, event, chunks[..k])
      + if o.validUtf8(chunks[k]) then [FtsRowFor(event, chunks[k])] else []
  }

  lemma IndexedSnoc(o: Oracle, event: Event, chunks: seq<bytes>, chunk: bytes)
    ensures Indexed(o, event, chunks + [chunk])
            == Indexed(o, event, chunks) + if o.validUtf8(chunk) then [FtsRowFor(event, chunk)] else []
  {
    assert (chunks + [chunk])[..|chunks|] == chunks;
  }

  // The chunk rows and projection rows that inserting these chunks adds to an event without any.
  function WithChunks(db: Tables, event: Event, chunks: seq<bytes>, o: Oracle): Tables {
    db.(chunks := db.chunks[event.id := RowsOf(chunks)], fts := db.fts + Indexed(o, event, chunks))
  }

  // A committed append of a new event.
  function WithEvent(db: Tables, event: Event, declared: uint64, chunks: seq<bytes>, o: Oracle): Tables {
    WithChunks(db, event, chunks, o).(
      events := db.events[event.id := EventRow(event, declared, declared, o.sha256(Join(chunks)))])
  }

  // ---------- verification of stored evidence ----------

  // The bytes a canonical table stands for.
  ghost function Stored(rows: Rows, total: nat): bytes { Join(RowSeq(rows, ChunkCount(total))) }

  predicate HexDigits(s: string) {
    forall i :: 0 <= i < |s| ==> '0' <= s[i] <= '9' || 'a' <= s[i] <= 'f' || 'A' <= s[i] <= 'F'
  }

  predicate ValidSha256(s: string) { |s| == 64 && HexDigits(s) }

  // The hash function behaves like a hash in hexadecimal.
  ghost predicate ProperHash(o: Oracle) {
    forall b :: ValidSha256(o.sha256(b))
  }

  // An event's evidence agrees with an attempt: same metadata and size, canonical chunks, right hash.
  ghost predicate Verified(db: Tables, attempt: Attempt, o: Oracle) {
    && attempt.event.id in db.events && attempt.event.id in db.chunks
    && var row, rows := db.events[attempt.event.id], db.chunks[attempt.event.id];
    && row.event == attempt.event && row.declared == attempt.declared && row.actual == row.declared
    && ValidSha256(row.sha256)
    && Canonical(rows, row.declared as nat)
    && o.sha256(Stored(rows, row.declared as nat)) == row.sha256
  }
}
