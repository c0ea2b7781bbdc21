/** The layout of evidence as numbered chunk rows: the canonical 32 KiB split,
    the payload positions a row table denotes, and pages of a payload. */
module Evidence {
  import opened Bytes

  const CHUNK_SIZE: nat := 0x8000

  // The chunk rows of one event, keyed by chunk_index.
  type Rows = map<int, bytes>

  function ChunkCount(total: nat): nat { (total + CHUNK_SIZE - 1) / CHUNK_SIZE }

  // The bytes that belong at an index of a payload of the given size.
  function ChunkLength(index: nat, total: nat): nat
    requires index * CHUNK_SIZE < total
  {
    Min(CHUNK_SIZE, total - index * CHUNK_SIZE)
  }

  // In 64-bit words; that this verifies shows that no step of it can wrap around.
  function ValidChunk(chunk: bytes, index: uint64, total: uint64): (ok: bool)
    ensures ok <==> ValidAt(chunk, index as int, total as nat)
  {
    if total == 0 || index > (total - 1) / (CHUNK_SIZE as uint64) then
      false
    else
      var start := index * (CHUNK_SIZE as uint64);
      var rest := total - start;
      var want := if rest > CHUNK_SIZE as uint64 then CHUNK_SIZE as uint64 else rest;
      |chunk| == want as nat
  }

  predicate ValidAt(chunk: bytes, index: int, total: nat) {
    0 <= index && index * CHUNK_SIZE < total && |chunk| == ChunkLength(index, total)
  }

  // ---------- row tables and the canonical layout ----------

  function RowsOf(chunks: seq<bytes>): Rows {
    map i | 0 <= i < |chunks| :: chunks[i]
  }

  lemma RowsOfSnoc(chunks: seq<bytes>, chunk: bytes)
    ensures RowsOf(chunks + [chunk]) == RowsOf(chunks)[|chunks| := chunk]
  {
  }

  ghost predicate Canonical(rows: Rows, total: nat) {
    && (forall i :: i in rows <==> 0 <= i < ChunkCount(total))
    && (forall i :: i in rows ==> ValidAt(rows[i], i, total))
  }

  function Piece(payload: bytes, i: nat): (piece: bytes)
    requires i < ChunkCount(|payload|)
    ensures ValidAt(piece, i, |payload|)
  {
    payload[i * CHUNK_SIZE..Min((i + 1) * CHUNK_SIZE, |payload|)]
  }

  function Split(payload: bytes): (chunks: seq<bytes>)
    ensures |chunks| == ChunkCount(|payload|)
    ensures forall i :: 0 <= i < |chunks| ==> chunks[i] == Piece(payload, i)
  {
    seq(ChunkCount(|payload|), i requires 0 <= i < ChunkCount(|payload|) => Piece(payload, i))
  }

  lemma JoinSplit(payload: bytes)
    ensures Join(Split(payload)) == payload
  {
    JoinSplitPrefix(payload, ChunkCount(|payload|));
    assert Split(payload)[..ChunkCount(|payload|)] == Split(payload);
  }

  lemma {:induction false} JoinSplitPrefix(payload: bytes, k: nat)
    requires k <= ChunkCount(|payload|)
    ensures Join(Split(payload)[..k]) == payload[..Min(k * CHUNK_SIZE, |payload|)]
  {
    if k > 0 {
      JoinSplitPrefix(payload, k - 1);
      var before := Split(payload)[..k - 1];
      JoinSnoc(before, Piece(payload, k - 1));
      assert Split(payload)[..k] == before + [Piece(payload, k - 1)];
      TakeMore(payload, (k - 1) * CHUNK_SIZE, Min(k * CHUNK_SIZE, |payload|));
      hide Join, Split, ValidAt, ChunkLength;
    }
  }

  // The table of a canonical split passes the row check.
  lemma SplitIsCanonical(payload: bytes)
    ensures Canonical(RowsOf(Split(payload)), |payload|)
  {
    forall i | i in RowsOf(Split(payload)) ensures ValidAt(RowsOf(Split(payload))[i], i, |payload|) {
      assert RowsOf(Split(payload))[i] == Piece(payload, i);
    }
  }

  // Chunks of the canonical lengths start at multiples of the chunk size.
  lemma {:induction false} CanonicalOffsets(chunks: seq<bytes>, total: nat, k: nat)
    requires k <= |chunks| == ChunkCount(total)
    requires forall i :: 0 <= i < |chunks| ==> ValidAt(chunks[i], i, total)
    ensures |Join(chunks[..k])| == Min(k * CHUNK_SIZE, total)
  {
    if k > 0 {
      CanonicalOffsets(chunks, total, k - 1);
      assert ValidAt(chunks[k - 1], k - 1, total);
      JoinSnoc(chunks[..k - 1], chunks[k - 1]);
      assert chunks[..k] == chunks[..k - 1] + [chunks[k - 1]];
    }
  }

  // ... and so can only be the canonical split of what they add up to.
  lemma CanonicalLengthsAreSplit(chunks: seq<bytes>, total: nat)
    requires |chunks| == ChunkCount(total)
    requires forall i :: 0 <= i < |chunks| ==> ValidAt(chunks[i], i, total)
    ensures |Join(chunks)| == total && chunks == Split(Join(chunks))
  {
    CanonicalOffsets(chunks, total, |chunks|);
    assert chunks[..|chunks|] == chunks;
    forall i | 0 <= i < |chunks| ensures chunks[i] == Piece(Join(chunks), i) {
      assert ValidAt(chunks[i], i, total);
      CanonicalOffsets(chunks, total, i);
      JoinSegment(chunks, i);
    }
  }

  // A row table is canonical exactly when it is the canonical split of some payload,
  // and then of only one.
  lemma CanonicalIsSplit(rows: Rows, total: nat) returns (payload: bytes)
    requires Canonical(rows, total)
    ensures |payload| == total && rows == RowsOf(Split(payload))
    ensures forall p :: rows == RowsOf(Split(p)) ==> p == payload
  {
    var chunks := RowSeq(rows, ChunkCount(total));
    CanonicalLengthsAreSplit(chunks, total);
    payload := Join(chunks);
    assert rows == RowsOf(chunks);
    forall p | rows == RowsOf(Split(p)) ensures p == payload {
      RowsOfInjective(Split(p), chunks);
      JoinSplit(p);
    }
  }

  lemma RowsOfInjective(a: seq<bytes>, b: seq<bytes>)
    requires RowsOf(a) == RowsOf(b)
    ensures a == b
  {
    assert |a| !in RowsOf(a) && |b| !in RowsOf(b);
    assert |a| == |b|;
    forall i | 0 <= i < |a| ensures a[i] == b[i] {
      assert RowsOf(a)[i] == RowsOf(b)[i];
    }
  }

  // The first n rows in index order; an absent row contributes nothing.
  function RowSeq(rows: Rows, n: nat): (chunks: seq<bytes>)
    ensures |chunks| == n
    ensures forall i :: 0 <= i < n ==> chunks[i] == if i in rows then rows[i] else []
  {
    seq(n, i => if i in rows then rows[i] else [])
  }

  lemma RowSeqOfRowsOf(chunks: seq<bytes>)
    ensures RowSeq(RowsOf(chunks), |chunks|) == chunks
  {
  }

  // Chunks that add up to a payload pass the row check exactly when they are its canonical split.
  lemma CanonicalIffSplit(chunks: seq<bytes>)
    ensures Canonical(RowsOf(chunks), |Join(chunks)|) <==> chunks == Split(Join(chunks))
  {
    var total := |Join(chunks)|;
    if Canonical(RowsOf(chunks), total) {
      var rows := RowsOf(chunks);
      forall i | 0 <= i < |chunks| ensures i < ChunkCount(total) && ValidAt(chunks[i], i, total) {
        assert i in rows;
        assert rows[i] == chunks[i];
      }
      assert |chunks| !in rows && ChunkCount(total) !in rows;
      CanonicalLengthsAreSplit(chunks, total);
    }
    if chunks == Split(Join(chunks)) {
      SplitIsCanonical(Join(chunks));
    }
  }

  // ---------- what a row table says about payload positions ----------

  function ByteAt(rows: Rows, position: nat): byte {
    var index, k := position / CHUNK_SIZE, position % CHUNK_SIZE;
    if index in rows && k < |rows[index]| then rows[index][k] else 0
  }

  // The bytes at positions from..to.
  function Positional(rows: Rows, from: nat, to: nat): (slice: bytes)
    requires from <= to
    ensures |slice| == to - from
    ensures forall k :: 0 <= k < |slice| ==> slice[k] == ByteAt(rows, from + k)
  {
    seq(to - from, k requires 0 <= k => ByteAt(rows, from + k))
  }

  lemma PositionalAppend(rows: Rows, from: nat, middle: nat, to: nat)
    requires from <= middle <= to
    ensures Positional(rows, from, middle) + Positional(rows, middle, to) == Positional(rows, from, to)
  {
  }

  lemma PositionalTake(rows: Rows, from: nat, n: nat, j: nat)
    requires j <= n
    ensures Positional(rows, from, from + n)[..j] == Positional(rows, from, from + j)
  {
  }

  // A stretch of one row holds the bytes of its positions.
  lemma PositionalInRow(rows: Rows, index: nat, start: nat, n: nat)
    requires index in rows && start + n <= |rows[index]| && |rows[index]| <= CHUNK_SIZE
    ensures Positional(rows, index * CHUNK_SIZE + start, index * CHUNK_SIZE + start + n)
            == rows[index][start..start + n]
  {
    var slice := Positional(rows, index * CHUNK_SIZE + start, index * CHUNK_SIZE + start + n);
    forall k | 0 <= k < n ensures slice[k] == rows[index][start + k] {
      var p := index * CHUNK_SIZE + start + k;
      assert p / CHUNK_SIZE == index && p % CHUNK_SIZE == start + k;
    }
  }

  // On a canonical table, positions are payload positions.
  lemma PositionalOfCanonical(payload: bytes, from: nat, to: nat)
    requires from <= to <= |payload|
    ensures Positional(RowsOf(Split(payload)), from, to) == payload[from..to]
  {
    var slice := Positional(RowsOf(Split(payload)), from, to);
    forall k | 0 <= k < to - from ensures slice[k] == payload[from + k] {
      ByteOfCanonical(payload, from + k);
    }
  }

  lemma ByteOfCanonical(payload: bytes, position: nat)
    requires position < |payload|
    ensures ByteAt(RowsOf(Split(payload)), position) == payload[position]
  {
    var chunks, index, k := Split(payload), position / CHUNK_SIZE, position % CHUNK_SIZE;
    assert RowsOf(chunks)[index] == Piece(payload, index);
    assert Piece(payload, index)[k] == payload[position];
  }

  // ---------- pages ----------

  // A limit of zero asks for everything after the offset.
  function PageLength(total: nat, offset: nat, limit: nat): (n: nat)
    ensures offset + n <= Max(total, offset)
  {
    if offset >= total then 0
    else if limit != 0 && limit < total - offset then limit
    else total - offset
  }

  function Page(payload: bytes, offset: nat, limit: nat): bytes {
    var n := PageLength(|payload|, offset, limit);
    if n == 0 then [] else payload[offset..offset + n]
  }

  // Consecutive pages from an offset, one of each size.
  function Pages(payload: bytes, offset: nat, sizes: seq<nat>): bytes
    decreases |sizes|
  {
    if sizes == [] then []
    else Page(payload, offset, sizes[0]) + Pages(payload, offset + sizes[0], sizes[1..])
  }

  function Sum(sizes: seq<nat>): nat {
    if sizes == [] then 0 else sizes[0] + Sum(sizes[1..])
  }

  // Pages of any positive sizes that reach the end add up to the whole payload.
  lemma {:induction false} PagesReassemble(payload: bytes, offset: nat, sizes: seq<nat>)
    requires forall i :: 0 <= i < |sizes| ==> sizes[i] > 0
    requires offset <= |payload| <= offset + Sum(sizes)
    ensures Pages(payload, offset, sizes) == payload[offset..]
    decreases |sizes|
  {
    if sizes != [] {
      var next := offset + sizes[0];
      if next <= |payload| {
        PagesReassemble(payload, next, sizes[1..]);
        assert payload[offset..] == payload[offset..next] + payload[next..];
      } else {
        PagesPastEnd(payload, next, sizes[1..]);
      }
    }
  }

  lemma {:induction false} PagesPastEnd(payload: bytes, offset: nat, sizes: seq<nat>)
    requires offset >= |payload|
    ensures Pages(payload, offset, sizes) == []
    decreases |sizes|
  {
    if sizes != [] {
      PagesPastEnd(payload, offset + sizes[0], sizes[1..]);
    }
  }
}
