/** The Go side of the wire: control frames, evidence headers, and exact streaming of evidence. */
module Wire {
  import opened Bytes
  import opened Streams
  import opened Framing

  datatype WireError = Io(err: IoError) | FrameTooLarge

  datatype Read<T> = Got(value: T) | Failed(error: WireError)

  const COPY_BUFFER: nat := 0x8000

  // ---------- writing ----------

  /** Writes one frame, all of it or, on an error, a prefix; a payload over the bound writes nothing. */
  method WriteFrame(w: Stream, payload: bytes) returns (err: Option<WireError>)
    modifies w`outbound, w`writePlan
    ensures |payload| > MAX_CONTROL_FRAME ==> err == Some(FrameTooLarge) && w.outbound == old(w.outbound)
    ensures err == None ==> |payload| <= MAX_CONTROL_FRAME && w.outbound == old(w.outbound) + Frame(payload)
    ensures err == None ==> exists h :: Spells(h, |payload|) && w.outbound == old(w.outbound) + h + payload
    ensures |payload| <= MAX_CONTROL_FRAME ==>
              exists k :: 0 <= k <= |Frame(payload)| && w.outbound == old(w.outbound) + Frame(payload)[..k]
    ensures Reliable(old(w.writePlan)) ==> Reliable(w.writePlan) && (|payload| <= MAX_CONTROL_FRAME ==> err == None)
  {
    if |payload| > MAX_CONTROL_FRAME { return Some(FrameTooLarge); }
    HeaderSpells(|payload| as uint64);
    hide Spells;
    ghost var before, header := w.outbound, Header(|payload| as uint64);
    var failure := w.WriteAll(Header(|payload| as uint64));
    if failure.Some? {
      ghost var k :| 0 <= k <= |header| && w.outbound == before + header[..k];
      assert Frame(payload)[..k] == header[..k];
      return Some(Io(failure.value));
    }
    failure := w.WriteAll(payload);
    ghost var k :| 0 <= k <= |payload| && w.outbound == before + header + payload[..k];
    assert Frame(payload)[..|header| + k] == header + payload[..k];
    assert before + header + payload[..k] == before + (header + payload[..k]);
    if failure.Some? { return Some(Io(failure.value)); }
    assert before + header + payload == before + Frame(payload);
    err := None;
  }

  method WriteEvidenceHeader(w: Stream, length: uint64) returns (err: Option<WireError>)
    modifies w`outbound, w`writePlan
    ensures err == None ==> w.outbound == old(w.outbound) + Header(length)
    ensures err == None ==> exists h :: Spells(h, length as nat) && w.outbound == old(w.outbound) + h
    ensures exists k :: 0 <= k <= HEADER_LENGTH && w.outbound == old(w.outbound) + Header(length)[..k]
    ensures Reliable(old(w.writePlan)) ==> err == None && Reliable(w.writePlan)
  {
    HeaderSpells(length);
    hide Spells;
    var failure := w.WriteAll(Header(length));
    err := if failure.Some? then Some(Io(failure.value)) else None;
  }

  // ---------- reading ----------

  // What is left of a reader's plan after it has given `length` bytes, if it does: an error ends it, unless it
  // comes with the last of them.
  ghost function Fill(inbound: bytes, plan: seq<ReadStep>, length: nat): Option<seq<ReadStep>>
    decreases length, |plan|
  {
    if length == 0 then Some(plan)
    else
      var n := ReadCount(inbound, plan, length);
      if n < length && ReadError(plan).Some? then None else Fill(inbound[n..], Rest(plan), length - n)
  }

  lemma FillStep(inbound: bytes, plan: seq<ReadStep>, length: nat)
    ensures length == 0 ==> Fill(inbound, plan, length) == Some(plan)
    ensures length > 0 ==>
              var n := ReadCount(inbound, plan, length);
              Fill(inbound, plan, length) ==
                if n < length && ReadError(plan).Some? then None else Fill(inbound[n..], Rest(plan), length - n)
  {
  }

  lemma {:induction false} FillEnough(inbound: bytes, plan: seq<ReadStep>, length: nat)
    ensures Fill(inbound, plan, length).Some? ==> length <= |inbound| && LaterPlan(plan, Fill(inbound, plan, length).value)
    ensures Provides(inbound, plan, length) ==>
              Fill(inbound, plan, length).Some? && |Fill(inbound, plan, length).value| + length >= |plan|
    decreases length, |plan|
  {
    if length > 0 {
      var n := ReadCount(inbound, plan, length);
      if n == length || ReadError(plan).None? {
        FillEnough(inbound[n..], Rest(plan), length - n);
      }
    }
  }

  // The same for a frame: its header, and then its payload.
  ghost function FramePlan(inbound: bytes, plan: seq<ReadStep>): Option<seq<ReadStep>> {
    match Fill(inbound, plan, HEADER_LENGTH)
    case None => None
    case Some(rest) => if Complete(inbound) then Fill(inbound[HEADER_LENGTH..], rest, Declared(inbound)) else None
  }

  lemma FramePlanEnough(inbound: bytes, plan: seq<ReadStep>)
    requires Complete(inbound) && Provides(inbound, plan, HEADER_LENGTH + Declared(inbound))
    ensures FramePlan(inbound, plan).Some?
  {
    FillEnough(inbound, plan, HEADER_LENGTH);
    FillEnough(inbound[HEADER_LENGTH..], Fill(inbound, plan, HEADER_LENGTH).value, Declared(inbound));
  }

  /** Reads exactly `length` bytes, however fragmented, or fails. */
  method ReadFull(r: Stream, length: nat) returns (data: Read<bytes>)
    modifies r`inbound, r`readPlan, r`consumed
    ensures |r.inbound| <= |old(r.inbound)|
    ensures data.Got? ==> |data.value| == length && Advanced(old(r.inbound), old(r.consumed), data.value, r.inbound, r.consumed)
    ensures data.Got? <==> Fill(old(r.inbound), old(r.readPlan), length).Some?
    ensures data.Failed? ==> data.error.Io?
    ensures data.Got? ==> Fill(old(r.inbound), old(r.readPlan), length) == Some(r.readPlan)
    ensures data.Got? ==> Drawn(old(r.inbound), old(r.readPlan), r.inbound, r.readPlan)
    ensures Provides(old(r.inbound), old(r.readPlan), length) ==>
              data.Got? && Steady(r.readPlan) && |r.readPlan| + length >= |old(r.readPlan)|
  {
    hide Fill, Drawn;
    DrawnNot(r.inbound, r.readPlan);
    var filled: bytes := [];
    ghost var all, seen := r.inbound, r.consumed;
    while |filled| < length
      invariant |filled| <= length && filled <= all
      invariant r.inbound == all[|filled|..] && r.consumed == seen + filled
      invariant Fill(all, old(r.readPlan), length) == Fill(r.inbound, r.readPlan, length - |filled|)
      invariant Drawn(all, old(r.readPlan), r.inbound, r.readPlan)
      invariant Provides(all, old(r.readPlan), length) ==> Steady(r.readPlan) && |r.readPlan| + |filled| >= |old(r.readPlan)|
      decreases length - |filled|, |r.readPlan|
    {
      FillStep(r.inbound, r.readPlan, length - |filled|);
      DrawnRead(r.inbound, r.readPlan, length - |filled|);
      ghost var inbound, plan := r.inbound, r.readPlan;
      // One Read into the unfilled part of the buffer.
      var rest := new byte[length - |filled|];
      var count, err := r.Read(rest, rest.Length);
      StreamOn(all, filled, rest[..count], seen, seen);
      DrawnOn(all, old(r.readPlan), inbound, plan, r.inbound, r.readPlan);
      filled := filled + rest[..count];
      if |filled| < length && err.Some? {
        return Failed(Io(if |filled| > 0 && err == Some(Eof) then UnexpectedEof else err.value));
      }
    }
    FillStep(r.inbound, r.readPlan, 0);
    assert all == filled + r.inbound;
    data := Got(filled);
  }

  // The front of the inbound bytes, and only it, has been consumed.
  ghost predicate Advanced(inbound: bytes, consumed: bytes, unit: bytes, inboundNow: bytes, consumedNow: bytes) {
    inbound == unit + inboundNow && consumedNow == consumed + unit
  }

  method ReadEvidenceHeader(r: Stream) returns (length: Read<uint64>)
    modifies r`inbound, r`readPlan, r`consumed
    ensures |r.inbound| <= |old(r.inbound)|
    ensures length.Got? ==>
              Advanced(old(r.inbound), old(r.consumed), Header(length.value), r.inbound, r.consumed)
    ensures length.Got? <==> Fill(old(r.inbound), old(r.readPlan), HEADER_LENGTH).Some?
    ensures length.Failed? ==> length.error.Io?
    ensures length.Got? ==>
              && |old(r.inbound)| >= HEADER_LENGTH && length.value as nat == Declared(old(r.inbound))
              && Spells(old(r.inbound)[..8], length.value as nat)
              && Fill(old(r.inbound), old(r.readPlan), HEADER_LENGTH) == Some(r.readPlan)
              && Drawn(old(r.inbound), old(r.readPlan), r.inbound, r.readPlan)
    ensures Provides(old(r.inbound), old(r.readPlan), HEADER_LENGTH) ==>
              && length.Got? && length.value as nat == Declared(old(r.inbound))
              && Steady(r.readPlan) && |r.readPlan| + HEADER_LENGTH >= |old(r.readPlan)|
  {
    var header := ReadFull(r, HEADER_LENGTH);
    if header.Failed? { return Failed(header.error); }
    HeaderBijective(0, header.value);
    ParseHeaderSpells(header.value);
    hide Spells;
    length := Got(ParseHeader(header.value));
  }

  /** Reads one control frame; a header over the bound is refused before any allocation. */
  method ReadFrame(r: Stream) returns (payload: Read<bytes>)
    modifies r`inbound, r`readPlan, r`consumed
    ensures payload.Got? ==> |payload.value| <= MAX_CONTROL_FRAME && |r.inbound| < |old(r.inbound)|
    ensures payload.Got? ==> Advanced(old(r.inbound), old(r.consumed), Frame(payload.value), r.inbound, r.consumed)
    ensures payload.Got? <==> FramePlan(old(r.inbound), old(r.readPlan)).Some?
    ensures payload.Got? ==>
              && Complete(old(r.inbound)) && payload.value == Payload(old(r.inbound)) && r.inbound == Tail(old(r.inbound))
              && Spells(old(r.inbound)[..8], |payload.value|)
              && FramePlan(old(r.inbound), old(r.readPlan)) == Some(r.readPlan)
              && Drawn(old(r.inbound), old(r.readPlan), r.inbound, r.readPlan)
    ensures payload == Failed(FrameTooLarge) <==>
              && Fill(old(r.inbound), old(r.readPlan), HEADER_LENGTH).Some? && |old(r.inbound)| >= HEADER_LENGTH
              && Declared(old(r.inbound)) > MAX_CONTROL_FRAME
    ensures payload == Failed(FrameTooLarge) ==> old(r.inbound)[HEADER_LENGTH..] == r.inbound
    ensures Complete(old(r.inbound)) && Provides(old(r.inbound), old(r.readPlan), HEADER_LENGTH + Declared(old(r.inbound))) ==>
              && payload == Got(Payload(old(r.inbound)))
              && Steady(r.readPlan) && |r.readPlan| + HEADER_LENGTH + Declared(old(r.inbound)) >= |old(r.readPlan)|
  {
    hide *;
    ghost var all, seen, plan := r.inbound, r.consumed, r.readPlan;
    ProvidesLess(all, plan);
    FramePlanOf(all, plan);
    var length := ReadEvidenceHeader(r);
    if length.Failed? { return Failed(length.error); }
    ghost var rest, later := r.inbound, r.readPlan;
    FrameParts(all, seen, length.value, rest, r.consumed);
    if length.value as nat > MAX_CONTROL_FRAME { return Failed(FrameTooLarge); }
    ghost var headed := r.consumed;
    ProvidesRest(all, plan, rest, later, length.value as nat);
    FillEnough(rest, later, length.value as nat);
    payload := ReadFull(r, length.value as nat);
    if payload.Got? {
      DrawnOn(all, plan, rest, later, r.inbound, r.readPlan);
      FrameTaken(all, seen, length.value, rest, headed, payload.value, r.inbound, r.consumed);
    }
  }

  lemma ProvidesLess(inbound: bytes, plan: seq<ReadStep>)
    ensures Complete(inbound) && Provides(inbound, plan, HEADER_LENGTH + Declared(inbound)) ==> Provides(inbound, plan, HEADER_LENGTH)
  {
  }

  lemma ProvidesRest(inbound: bytes, plan: seq<ReadStep>, rest: bytes, later: seq<ReadStep>, length: nat)
    requires |rest| + HEADER_LENGTH >= |inbound|
    ensures Provides(inbound, plan, HEADER_LENGTH + length) && Steady(later) && |later| + HEADER_LENGTH >= |plan| ==>
              Provides(rest, later, length)
  {
  }

  lemma FramePlanOf(inbound: bytes, plan: seq<ReadStep>)
    ensures match Fill(inbound, plan, HEADER_LENGTH)
            case None => FramePlan(inbound, plan) == None
            case Some(rest) =>
              FramePlan(inbound, plan) == if Complete(inbound) then Fill(inbound[HEADER_LENGTH..], rest, Declared(inbound)) else None
  {
  }

  // What a header tells of the frame it begins.
  lemma FrameParts(all: bytes, seen: bytes, length: uint64, rest: bytes, consumed: bytes)
    requires Advanced(all, seen, Header(length), rest, consumed)
    ensures |all| == HEADER_LENGTH + |rest| && all[HEADER_LENGTH..] == rest && Declared(all) == length as nat
    ensures Complete(all) <==> length as nat <= MAX_CONTROL_FRAME && length as nat <= |rest|
    ensures Complete(all) ==> Payload(all) == rest[..length] && Tail(all) == rest[length..]
  {
    HeaderBijective(length, Header(length));
    assert all[..HEADER_LENGTH] == Header(length);
  }

  lemma FrameTaken(all: bytes, seen: bytes, length: uint64, rest: bytes, headed: bytes, payload: bytes, left: bytes, consumed: bytes)
    requires Advanced(all, seen, Header(length), rest, headed) && Advanced(rest, headed, payload, left, consumed)
    requires |payload| == length as nat <= MAX_CONTROL_FRAME
    ensures Advanced(all, seen, Frame(payload), left, consumed) && |left| < |all|
    ensures payload == rest[..length] && left == rest[length..]
  {
    Reassociate(Header(length), payload, left);
    Reassociate(seen, Header(length), payload);
  }

  // ---------- streaming ----------

  datatype EvidenceMetadata = EvidenceMetadata(byteCount: uint64, sha256: string)

  /** Copies exactly `length` bytes through a bounded buffer and hashes them. */
  method StreamEvidence(source: Stream, destination: Stream, length: uint64, sha256: bytes -> string)
    returns (r: Read<EvidenceMetadata>)
    requires source != destination
    modifies source`inbound, source`readPlan, source`consumed, destination`outbound, destination`writePlan
    ensures r.Got? ==>
              && length as nat <= |old(source.inbound)|
              && Advanced(old(source.inbound), old(source.consumed), old(source.inbound)[..length], source.inbound, source.consumed)
              && destination.outbound == old(destination.outbound) + old(source.inbound)[..length]
              && r.value == EvidenceMetadata(length, sha256(old(source.inbound)[..length]))
    ensures Provides(old(source.inbound), old(source.readPlan), length as nat) && Reliable(old(destination.writePlan)) ==> r.Got?
  {
    var buffer := new byte[COPY_BUFFER];
    var remaining := length;
    var hashed: bytes := [];
    ghost var all, seen, before := source.inbound, source.consumed, destination.outbound;
    while remaining > 0
      invariant |hashed| + remaining as nat == length as nat && hashed <= all
      invariant source.inbound == all[|hashed|..] && source.consumed == seen + hashed
      invariant destination.outbound == before + hashed
      invariant Provides(all, old(source.readPlan), length as nat) && Reliable(old(destination.writePlan)) ==>
                  Steady(source.readPlan) && |source.readPlan| >= remaining as nat && Reliable(destination.writePlan)
      decreases remaining
    {
      var n, err := source.Read(buffer, Min(buffer.Length, remaining as int));
      if n > 0 {
        var chunk := buffer[..n];
        var failure := destination.WriteAll(chunk);
        if failure.Some? { return Failed(Io(failure.value)); }
        StreamOn(all, hashed, chunk, before, seen);
        hashed := hashed + chunk;
        remaining := remaining - n as uint64;
      }
      if remaining > 0 && err.Some? {
        return Failed(Io(if err == Some(Eof) then UnexpectedEof else err.value));
      }
      if n == 0 { return Failed(Io(NoProgress)); }
    }
    assert hashed == all[..length] && all == hashed + source.inbound;
    r := Got(EvidenceMetadata(length, sha256(hashed)));
  }

  lemma StreamOn(all: bytes, hashed: bytes, chunk: bytes, before: bytes, seen: bytes)
    requires hashed <= all && chunk <= all[|hashed|..]
    ensures hashed + chunk <= all && all[|hashed|..][|chunk|..] == all[|hashed + chunk|..]
    ensures before + hashed + chunk == before + (hashed + chunk)
    ensures seen + hashed + chunk == seen + (hashed + chunk)
  {
  }

  // A frame written on one side is the frame read on the other, whatever follows it.
  lemma FrameReadBack(payload: bytes, other: bytes, more: bytes, rest: bytes)
    requires |payload| <= MAX_CONTROL_FRAME && |other| <= MAX_CONTROL_FRAME
    requires Frame(payload) + more == Frame(other) + rest
    ensures other == payload && rest == more
  {
    ParseOne(payload, more);
    ParseOne(other, rest);
    assert Parse(Frame(payload) + more).frames[0] == payload;
    assert Parse(Frame(other) + rest).frames[0] == other;
    assert (Frame(payload) + more)[|Frame(payload)|..] == more;
    assert (Frame(other) + rest)[|Frame(other)|..] == rest;
  }
}
