/** Length-prefixed control frames and the extension's incremental decoder over a queue of chunks. */
module Framing {
  import opened Bytes

  const MAX_CONTROL_FRAME: nat := 0x10_0000

  // ---------- encoding ----------

  function Frame(payload: bytes): bytes
    requires |payload| <= MAX_CONTROL_FRAME
  {
    Header(|payload| as uint64) + payload
  }

  function Frames(payloads: seq<bytes>): bytes
    requires forall i :: 0 <= i < |payloads| ==> |payloads[i]| <= MAX_CONTROL_FRAME
  {
    if payloads == [] then [] else Frame(payloads[0]) + Frames(payloads[1..])
  }

  /** The header for any length that fits 64 bits; a RangeError, None, for every other. */
  method EncodeEvidenceHeader(length: int) returns (header: Option<array<byte>>)
    ensures header.Some? <==> 0 <= length < 0x1_0000_0000_0000_0000
    ensures header.Some? ==> fresh(header.value) && header.value[..] == Header(length as uint64) && Spells(header.value[..], length)
  {
    if length < 0 || length >= 0x1_0000_0000_0000_0000 { return None; }
    var word := Header(length as uint64);
    var bytes := new byte[HEADER_LENGTH](i requires 0 <= i < HEADER_LENGTH => word[i]);
    assert bytes[..] == word;
    HeaderSpells(length as uint64);
    header := Some(bytes);
  }

  /** One buffer with the header and then the payload; a RangeError for a payload over the bound. */
  method EncodeFramePayload(payload: bytes) returns (frame: Option<array<byte>>)
    ensures frame.Some? <==> |payload| <= MAX_CONTROL_FRAME
    ensures frame.Some? ==> fresh(frame.value) && frame.value[..] == Frame(payload)
    ensures frame.Some? ==>
              && frame.value.Length == 8 + |payload| && Spells(frame.value[..8], |payload|) && frame.value[8..] == payload
  {
    if |payload| > MAX_CONTROL_FRAME { return None; }
    var buffer := new byte[HEADER_LENGTH + |payload|];
    var header := EncodeEvidenceHeader(|payload|);
    var word := header.value;
    forall i | 0 <= i < HEADER_LENGTH { buffer[i] := word[i]; }
    forall i | 0 <= i < |payload| { buffer[HEADER_LENGTH + i] := payload[i]; }
    assert buffer[..HEADER_LENGTH] == word[..] && buffer[HEADER_LENGTH..] == payload;
    assert buffer[..] == buffer[..HEADER_LENGTH] + buffer[HEADER_LENGTH..];
    frame := Some(buffer);
  }

  // ---------- the parser that the decoder refines ----------

  // The complete frames at the front of a byte string, what is left, and whether what is left
  // starts with a header over the bound.
  datatype Parsed = Parsed(frames: seq<bytes>, rest: bytes, oversized: bool)

  // The length that the header of b declares.
  function Declared(b: bytes): nat
    requires |b| >= HEADER_LENGTH
  {
    ParseHeader(b[..HEADER_LENGTH]) as nat
  }

  predicate Oversized(b: bytes) { |b| >= HEADER_LENGTH && Declared(b) > MAX_CONTROL_FRAME }

  predicate Complete(b: bytes) {
    |b| >= HEADER_LENGTH && Declared(b) <= MAX_CONTROL_FRAME && HEADER_LENGTH + Declared(b) <= |b|
  }

  function Payload(b: bytes): bytes
    requires Complete(b)
  {
    b[HEADER_LENGTH..HEADER_LENGTH + Declared(b)]
  }

  function Tail(b: bytes): (tail: bytes)
    requires Complete(b)
    ensures |tail| < |b|
  {
    b[HEADER_LENGTH + Declared(b)..]
  }

  function Parse(b: bytes): Parsed
    decreases |b|
  {
    if Complete(b) then
      var p := Parse(Tail(b));
      Parsed([Payload(b)] + p.frames, p.rest, p.oversized)
    else Parsed([], b, Oversized(b))
  }

  // What is left waits for more: parsing it yields nothing, and unless it is oversized it is short.
  lemma {:induction false} RestIsShort(b: bytes)
    ensures Parse(Parse(b).rest) == Parsed([], Parse(b).rest, Parse(b).oversized)
    ensures !Parse(b).oversized ==> |Parse(b).rest| < HEADER_LENGTH + MAX_CONTROL_FRAME
    decreases |b|
  {
    if Complete(b) {
      RestIsShort(Tail(b));
    }
  }

  lemma CompleteIsFrame(b: bytes)
    requires Complete(b)
    ensures |Payload(b)| <= MAX_CONTROL_FRAME && b == Frame(Payload(b)) + Tail(b)
  {
    HeaderBijective(0, b[..HEADER_LENGTH]);
    assert b == b[..HEADER_LENGTH] + Payload(b) + Tail(b);
  }

  // Nothing is lost or invented: the frames, encoded again, and the rest are the input.
  lemma {:induction false} ParseConserves(b: bytes)
    ensures forall i :: 0 <= i < |Parse(b).frames| ==> |Parse(b).frames[i]| <= MAX_CONTROL_FRAME
    ensures Frames(Parse(b).frames) + Parse(b).rest == b
    decreases |b|
  {
    if Complete(b) {
      var tail := Tail(b);
      ParseConserves(tail);
      CompleteIsFrame(b);
      hide Complete, Frame, Payload;
      FramesCons(Payload(b), Parse(tail).frames);
      Reassociate(Frame(Payload(b)), Frames(Parse(tail).frames), Parse(tail).rest);
    }
  }

  lemma FramesCons(payload: bytes, payloads: seq<bytes>)
    requires |payload| <= MAX_CONTROL_FRAME
    requires forall i :: 0 <= i < |payloads| ==> |payloads[i]| <= MAX_CONTROL_FRAME
    ensures Frames([payload] + payloads) == Frame(payload) + Frames(payloads)
  {
    assert ([payload] + payloads)[1..] == payloads;
  }

  lemma ParseOne(payload: bytes, more: bytes)
    requires |payload| <= MAX_CONTROL_FRAME
    ensures var p := Parse(more);
            Parse(Frame(payload) + more) == Parsed([payload] + p.frames, p.rest, p.oversized)
  {
    var header, b := Header(|payload| as uint64), Frame(payload) + more;
    HeaderBijective(|payload| as uint64, header);
    assert b[..HEADER_LENGTH] == header;
    assert b[HEADER_LENGTH..HEADER_LENGTH + |payload|] == payload && b[HEADER_LENGTH + |payload|..] == more;
  }

  // Decoding what was encoded gives it back.
  lemma {:induction false} ParseFrames(payloads: seq<bytes>)
    requires forall i :: 0 <= i < |payloads| ==> |payloads[i]| <= MAX_CONTROL_FRAME
    ensures Parse(Frames(payloads)) == Parsed(payloads, [], false)
  {
    if payloads != [] {
      ParseFrames(payloads[1..]);
      ParseOne(payloads[0], Frames(payloads[1..]));
    }
  }

  // More bytes behind a header or a complete frame change neither.
  lemma MoreBehind(a: bytes, b: bytes)
    ensures Oversized(a) ==> Oversized(a + b)
    ensures Complete(a) ==> Complete(a + b) && Payload(a + b) == Payload(a) && Tail(a + b) == Tail(a) + b
    ensures Oversized(a) ==> !Complete(a + b)
  {
    if |a| >= HEADER_LENGTH {
      assert (a + b)[..HEADER_LENGTH] == a[..HEADER_LENGTH];
    }
  }

  // Parsing may stop and resume anywhere before an oversized header.
  lemma {:induction false} ParseResumes(a: bytes, b: bytes)
    ensures !Parse(a).oversized ==>
              var p, q := Parse(a), Parse(Parse(a).rest + b);
              Parse(a + b) == Parsed(p.frames + q.frames, q.rest, q.oversized)
    ensures Parse(a).oversized ==> Parse(a + b) == Parse(a).(rest := Parse(a).rest + b)
    decreases |a|
  {
    MoreBehind(a, b);
    if Complete(a) {
      var p := Parse(Tail(a));
      ParseResumes(Tail(a), b);
      hide Complete, Payload, Tail, Oversized;
      var q := Parse(p.rest + b);
      assert [Payload(a)] + (p.frames + q.frames) == ([Payload(a)] + p.frames) + q.frames;
    } else {
      assert [] + Parse(a + b).frames == Parse(a + b).frames;
    }
  }

  // ---------- a sequence of pushes ----------

  // The frames that a decoder returns for these chunks in turn, and what it then holds. A push that
  // meets an oversized header throws, and the frames before that header in the same push are lost.
  function Feed(held: bytes, chunks: seq<bytes>): Parsed
    decreases |chunks|
  {
    if chunks == [] then Parsed([], held, false)
    else
      var p := Parse(held + chunks[0]);
      if p.oversized then Parsed([], p.rest, true)
      else
        var q := Feed(p.rest, chunks[1..]);
        Parsed(p.frames + q.frames, q.rest, q.oversized)
  }

  // The frames that a throwing push had decoded, and that its caller never gets.
  function Lost(held: bytes, chunks: seq<bytes>): seq<bytes>
    decreases |chunks|
  {
    if chunks == [] then []
    else
      var p := Parse(held + chunks[0]);
      if p.oversized then p.frames else Lost(p.rest, chunks[1..])
  }

  // Main result on decoding: for any chunking of a stream, the decoder throws exactly if the stream has an
  // oversized header, and holds what the parser leaves of the chunks up to there; the frames it has returned
  // are the stream's, but for those of the throwing push.
  lemma {:induction false} AnyChunking(held: bytes, chunks: seq<bytes>)
    requires Parse(held) == Parsed([], held, false)
    ensures Feed(held, chunks).oversized == Parse(held + Join(chunks)).oversized
    ensures !Parse(held + Join(chunks)).oversized ==> Feed(held, chunks) == Parse(held + Join(chunks)) && Lost(held, chunks) == []
    ensures Parse(held + Join(chunks)).frames == Feed(held, chunks).frames + Lost(held, chunks)
    decreases |chunks|
  {
    hide *;
    FeedFirst(held, chunks);
    if chunks != [] {
      var first, more := chunks[0], chunks[1..];
      var p := Parse(held + first);
      ParseResumes(held + first, Join(more));
      RestIsShort(held + first);
      if !p.oversized {
        AnyChunking(p.rest, more);
        assert p.frames + (Feed(p.rest, more).frames + Lost(p.rest, more)) == p.frames + Feed(p.rest, more).frames + Lost(p.rest, more);
      }
    }
  }

  // The first push.
  lemma FeedFirst(held: bytes, chunks: seq<bytes>)
    ensures chunks == [] ==> Feed(held, chunks) == Parsed([], held, false) && Lost(held, chunks) == [] && held + Join(chunks) == held
    ensures chunks != [] ==>
              var p, more := Parse(held + chunks[0]), chunks[1..];
              && held + Join(chunks) == held + chunks[0] + Join(more)
              && Lost(held, chunks) == (if p.oversized then p.frames else Lost(p.rest, more))
              && Feed(held, chunks) == if p.oversized then Parsed([], p.rest, true)
                                       else Feed(p.rest, more).(frames := p.frames + Feed(p.rest, more).frames)
  {
    if chunks != [] {
      assert chunks == [chunks[0]] + chunks[1..];
      JoinCons(chunks[0], chunks[1..]);
      Reassociate(held, chunks[0], Join(chunks[1..]));
      hide Parse;
    }
  }

  // Encoded frames, cut up in any way, decode to their payloads.
  lemma EncodeDecode(payloads: seq<bytes>, chunks: seq<bytes>)
    requires forall i :: 0 <= i < |payloads| ==> |payloads[i]| <= MAX_CONTROL_FRAME
    requires Join(chunks) == Frames(payloads)
    ensures Feed([], chunks) == Parsed(payloads, [], false)
  {
    AnyChunking([], chunks);
    ParseFrames(payloads);
    assert [] + Join(chunks) == Frames(payloads);
  }

  // ---------- the chunk queue ----------

  ghost predicate ValidQueue(chunks: seq<bytes>, offset: nat) {
    && (forall i :: 0 <= i < |chunks| ==> chunks[i] != [])
    && (if chunks == [] then offset == 0 else offset < |chunks[0]| && offset < |Join(chunks)|)
  }

  // The bytes a queue holds, its first chunk being read up to the offset.
  ghost function Queued(chunks: seq<bytes>, offset: nat): (b: bytes)
    requires ValidQueue(chunks, offset)
    ensures chunks == [] <==> b == []
  {
    Join(chunks)[offset..]
  }

  lemma QueueFront(chunks: seq<bytes>)
    requires chunks != []
    ensures chunks[0] <= Join(chunks) && Join(chunks)[|chunks[0]|..] == Join(chunks[1..])
  {
    assert chunks == [chunks[0]] + chunks[1..];
    JoinCons(chunks[0], chunks[1..]);
  }

  lemma QueueNonempty(chunks: seq<bytes>)
    requires forall i :: 0 <= i < |chunks| ==> chunks[i] != []
    ensures chunks != [] ==> |Join(chunks)| >= |chunks[0]| > 0
  {
    if chunks != [] { QueueFront(chunks); }
  }

  lemma QueuePush(chunks: seq<bytes>, offset: nat, chunk: bytes)
    requires ValidQueue(chunks, offset) && chunk != []
    ensures ValidQueue(chunks + [chunk], offset)
    ensures Queued(chunks + [chunk], offset) == Queued(chunks, offset) + chunk
  {
    JoinSnoc(chunks, chunk);
  }

  // Reading `count` bytes of the first chunk, and dropping it when it is used up.
  lemma QueueRead(chunks: seq<bytes>, offset: nat, count: nat)
    requires ValidQueue(chunks, offset) && chunks != [] && offset + count <= |chunks[0]|
    ensures count <= |Queued(chunks, offset)|
    ensures Queued(chunks, offset)[..count] == chunks[0][offset..offset + count]
    ensures if offset + count < |chunks[0]|
            then ValidQueue(chunks, offset + count) && Queued(chunks, offset + count) == Queued(chunks, offset)[count..]
            else ValidQueue(chunks[1..], 0) && Queued(chunks[1..], 0) == Queued(chunks, offset)[count..]
  {
    QueueFront(chunks);
    QueueNonempty(chunks[1..]);
    forall i | 0 <= i < |chunks[1..]| ensures chunks[1..][i] != [] {
      assert chunks[1..][i] == chunks[i + 1];
    }
  }

  // ---------- the decoder ----------

  class FrameDecoder {
    var chunks: seq<bytes>
    var chunkOffset: nat
    var bufferedByteLength: nat

    ghost predicate Valid()
      reads this
    {
      ValidQueue(chunks, chunkOffset) && bufferedByteLength == |Queued(chunks, chunkOffset)|
    }

    ghost function Contents(): bytes
      reads this
      requires Valid()
    {
      Queued(chunks, chunkOffset)
    }

    constructor ()
      ensures Valid() && Contents() == []
    {
      chunks, chunkOffset, bufferedByteLength := [], 0, 0;
    }

    /** Takes a chunk and returns the frames it completes. Throws exactly on an oversized header;
        otherwise holds less than one whole frame. */
    method Push(chunk: bytes) returns (frames: seq<bytes>, thrown: bool)
      requires Valid()
      modifies this
      ensures Valid()
      ensures thrown == Parse(old(Contents()) + chunk).oversized
      ensures Contents() == Parse(old(Contents()) + chunk).rest
      ensures frames == if thrown then [] else Parse(old(Contents()) + chunk).frames
      ensures !thrown ==> bufferedByteLength < HEADER_LENGTH + MAX_CONTROL_FRAME
    {
      hide ValidQueue, Queued, Parse;
      ghost var all := Contents() + chunk;
      if |chunk| > 0 {
        QueuePush(chunks, chunkOffset, chunk);
        chunks := chunks + [chunk];
        bufferedByteLength := bufferedByteLength + |chunk|;
      }
      assert Valid() && Contents() == all;
      frames, thrown := [], false;
      ParseStart(all);
      while bufferedByteLength >= HEADER_LENGTH
        invariant Valid()
        invariant Resumes(all, frames, Contents())
        decreases bufferedByteLength
      {
        var header := Peek(HEADER_LENGTH);
        ParseNext(all, frames, Contents());
        var length := ParseHeader(header);
        if length as nat > MAX_CONTROL_FRAME { return [], true; }
        var payloadLength := length as nat;
        if bufferedByteLength < HEADER_LENGTH + payloadLength { break; }
        ghost var held := Contents();
        var _ := ReadBytes(HEADER_LENGTH);
        assert held[HEADER_LENGTH..][..payloadLength] == held[HEADER_LENGTH..HEADER_LENGTH + payloadLength];
        assert held[HEADER_LENGTH..][payloadLength..] == held[HEADER_LENGTH + payloadLength..];
        var payload := ReadBytes(payloadLength);
        frames := frames + [payload];
      }
      ParseEnd(all, frames, Contents());
      // The source's last check, that the buffer is not over its bound, always passes.
      assert bufferedByteLength <= HEADER_LENGTH + MAX_CONTROL_FRAME;
    }

    // Copies the first bytes without consuming them; the source's invariant error is never reached.
    method Peek(length: nat) returns (copy: bytes)
      requires Valid() && 0 < length <= bufferedByteLength
      ensures copy == Contents()[..length]
    {
      hide ValidQueue, Queued;
      ghost var all := Contents();
      var result := new byte[length];
      var resultOffset, index := 0, 0;
      PeekStart(chunks);
      while index < |chunks|
        invariant 0 <= index <= |chunks| && 0 <= resultOffset < length
        invariant resultOffset == if index == 0 then 0 else |Join(chunks[..index])| - chunkOffset
        invariant Valid() && all == Contents() && length <= |all|
        invariant result[..resultOffset] == all[..resultOffset]
      {
        var chunk := chunks[index];
        var start := if index == 0 then chunkOffset else 0;
        QueueOffset(chunks, chunkOffset);
        var count := Min(length - resultOffset, |chunk| - start);
        PeekAt(chunks, chunkOffset, index, count);
        forall i | 0 <= i < count { result[resultOffset + i] := chunk[start + i]; }
        PeekMore(all, resultOffset, count, result[..resultOffset + count], chunk[start..start + count]);
        resultOffset := resultOffset + count;
        if resultOffset == length { return result[..]; }
        index := index + 1;
      }
      PeekEnd(chunks, chunkOffset, index);
      assert false;
    }

    // Consumes the first bytes; there is always a first chunk to take them from.
    method ReadBytes(length: nat) returns (copy: bytes)
      requires Valid() && length <= bufferedByteLength
      modifies this
      ensures Valid()
      ensures copy == old(Contents())[..length] && Contents() == old(Contents())[length..]
    {
      hide ValidQueue, Queued;
      ghost var all := Contents();
      var result := new byte[length];
      var offset := 0;
      while offset < length
        invariant 0 <= offset <= length <= |all| && Valid()
        invariant result[..offset] == all[..offset] && Contents() == all[offset..]
        decreases length - offset
      {
        var chunk := chunks[0];
        QueueOffset(chunks, chunkOffset);
        var available := |chunk| - chunkOffset;
        var count := Min(length - offset, available);
        QueueRead(chunks, chunkOffset, count);
        forall i | 0 <= i < count { result[offset + i] := chunk[chunkOffset + i]; }
        ReadMore(all, offset, count, result[..offset + count], chunk[chunkOffset..chunkOffset + count]);
        offset := offset + count;
        chunkOffset := chunkOffset + count;
        bufferedByteLength := bufferedByteLength - count;
        if chunkOffset == |chunk| {
          chunks, chunkOffset := chunks[1..], 0;
        }
      }
      copy := result[..];
    }
  }

  lemma QueueOffset(chunks: seq<bytes>, offset: nat)
    requires ValidQueue(chunks, offset) && chunks != []
    ensures offset < |chunks[0]|
  {
  }

  lemma PeekStart(chunks: seq<bytes>)
    ensures |Join(chunks[..0])| == 0
  {
    assert chunks[..0] == [];
  }

  lemma PeekEnd(chunks: seq<bytes>, offset: nat, index: nat)
    requires ValidQueue(chunks, offset) && index == |chunks|
    ensures index > 0 ==> |Join(chunks[..index])| - offset == |Queued(chunks, offset)|
    ensures index == 0 ==> |Queued(chunks, offset)| == 0
  {
    assert chunks[..index] == chunks;
  }

  lemma PeekMore(all: bytes, at: nat, count: nat, copied: bytes, piece: bytes)
    requires at + count <= |all| && |copied| == at + count
    requires copied[..at] == all[..at] && piece == all[at..at + count]
    requires forall i :: 0 <= i < count ==> copied[at + i] == piece[i]
    ensures copied == all[..at + count]
  {
    assert copied == copied[..at] + copied[at..];
    assert all[..at + count] == all[..at] + all[at..at + count];
  }

  lemma ReadMore(all: bytes, offset: nat, count: nat, copied: bytes, piece: bytes)
    requires offset + count <= |all| && |copied| == offset + count
    requires copied[..offset] == all[..offset] && piece == all[offset..][..count]
    requires forall i :: 0 <= i < count ==> copied[offset + i] == piece[i]
    ensures copied == all[..offset + count] && all[offset..][count..] == all[offset + count..]
  {
    assert all[..offset + count] == all[..offset] + all[offset..][..count];
    assert copied[offset..] == piece;
    assert copied == copied[..offset] + copied[offset..];
  }

  // Where a peek finds the bytes of the chunk at an index.
  lemma PeekAt(chunks: seq<bytes>, offset: nat, index: nat, count: nat)
    requires ValidQueue(chunks, offset) && index < |chunks|
    requires count <= |chunks[index]| - if index == 0 then offset else 0
    ensures var start := if index == 0 then offset else 0;
            var at := if index == 0 then 0 else |Join(chunks[..index])| - offset;
            && 0 <= at && at + count <= |Queued(chunks, offset)|
            && Queued(chunks, offset)[at..at + count] == chunks[index][start..start + count]
            && |Join(chunks[..index + 1])| == |Join(chunks[..index])| + |chunks[index]|
  {
    var all, start, s := Join(chunks), if index == 0 then offset else 0, |Join(chunks[..index])|;
    JoinSegment(chunks, index);
    assert chunks[..index + 1] == chunks[..index] + [chunks[index]];
    JoinSnoc(chunks[..index], chunks[index]);
    if index > 0 {
      assert chunks[..index][0] == chunks[0];
      QueueFront(chunks[..index]);
      assert chunks[index][0..count] == all[s..s + count] == all[offset..][s - offset..s - offset + count];
    } else {
      assert chunks[..0] == [];
      assert chunks[0][offset..offset + count] == all[offset..offset + count] == all[offset..][0..count];
    }
  }

  // ---------- the decoding loop over values ----------

  // What remains continues the parse of all that came.
  ghost predicate Resumes(all: bytes, frames: seq<bytes>, held: bytes) {
    Parse(all) == Parsed(frames + Parse(held).frames, Parse(held).rest, Parse(held).oversized)
  }

  lemma ParseStart(all: bytes)
    ensures Resumes(all, [], all)
  {
    assert [] + Parse(all).frames == Parse(all).frames;
  }

  lemma ParseNext(all: bytes, frames: seq<bytes>, held: bytes)
    requires Resumes(all, frames, held) && |held| >= HEADER_LENGTH
    ensures var n := ParseHeader(held[..HEADER_LENGTH]) as nat;
            && (n > MAX_CONTROL_FRAME ==> Parse(all).oversized && Parse(all).rest == held)
            && (n <= MAX_CONTROL_FRAME && |held| < HEADER_LENGTH + n ==> Parse(held) == Parsed([], held, false))
            && (n <= MAX_CONTROL_FRAME && HEADER_LENGTH + n <= |held| ==>
                  Resumes(all, frames + [held[HEADER_LENGTH..HEADER_LENGTH + n]], held[HEADER_LENGTH + n..]))
  {
    hide ParseHeader;
    ParseOnce(held);
    hide Parse;
    if Complete(held) {
      var payload, tail := Payload(held), Tail(held);
      assert frames + ([payload] + Parse(tail).frames) == frames + [payload] + Parse(tail).frames;
    }
  }

  lemma ParseOnce(b: bytes)
    ensures Complete(b) ==>
              var p := Parse(Tail(b)); Parse(b) == Parsed([Payload(b)] + p.frames, p.rest, p.oversized)
    ensures !Complete(b) ==> Parse(b) == Parsed([], b, Oversized(b))
  {
  }

  lemma ParseEnd(all: bytes, frames: seq<bytes>, held: bytes)
    requires Resumes(all, frames, held)
    requires |held| < HEADER_LENGTH || Parse(held) == Parsed([], held, false)
    ensures Parse(all) == Parsed(frames, held, false)
    ensures |held| < HEADER_LENGTH + MAX_CONTROL_FRAME
  {
    assert Parse(held) == Parsed([], held, false);
    assert frames + [] == frames;
    RestIsShort(held);
  }
}
