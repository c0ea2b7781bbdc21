/** Byte streams whose fragmentation and failures are scripted, so that a statement
    over all scripts is a statement over all readers and writers. */
module Streams {
  import opened Bytes

  datatype IoError = Eof | UnexpectedEof | NoProgress | ShortWrite | InvalidCount | Broken

  // One call of Read: at most this many bytes, and this error beside them.
  datatype ReadStep = ReadStep(most: nat, err: Option<IoError>)

  // One call of Write: a partial write, perhaps with an error, or a count outside the argument.
  datatype WriteStep = Accept(most: nat, err: Option<IoError>) | Misreport

  // An exhausted read script is a closed peer; an exhausted write script takes everything.
  function ReadCount(inbound: bytes, plan: seq<ReadStep>, limit: nat): (n: nat)
    ensures n <= limit && n <= |inbound|
  {
    if plan == [] then 0 else Min(plan[0].most, Min(limit, |inbound|))
  }

  function ReadError(plan: seq<ReadStep>): Option<IoError> {
    if plan == [] then Some(Eof) else plan[0].err
  }

  function Rest<T>(plan: seq<T>): (r: seq<T>)
    ensures |r| <= |plan|
  {
    if plan == [] then [] else plan[1..]
  }

  // A reader that returns at least one byte per call while there is one, and never fails.
  ghost predicate Steady(plan: seq<ReadStep>) {
    forall i :: 0 <= i < |plan| ==> plan[i].most > 0 && plan[i].err == None
  }

  // A reader that can be relied on for so many bytes.
  ghost predicate Provides(inbound: bytes, plan: seq<ReadStep>, n: nat) {
    Steady(plan) && n <= |plan| && n <= |inbound|
  }

  // What is left of a plan.
  predicate LaterPlan(before: seq<ReadStep>, after: seq<ReadStep>) {
    |after| <= |before| && after == before[|before| - |after|..]
  }

  // What reading leaves of a reader: the rest of its plan, still enough for the rest of its bytes if it was enough.
  ghost predicate Drawn(inbound: bytes, plan: seq<ReadStep>, inboundNow: bytes, planNow: seq<ReadStep>) {
    && LaterPlan(plan, planNow)
    && (Provides(inbound, plan, |inbound|) ==> Provides(inboundNow, planNow, |inboundNow|))
  }

  lemma DrawnNot(inbound: bytes, plan: seq<ReadStep>)
    ensures Drawn(inbound, plan, inbound, plan)
  {
  }

  lemma DrawnRead(inbound: bytes, plan: seq<ReadStep>, limit: nat)
    requires limit > 0
    ensures Drawn(inbound, plan, inbound[ReadCount(inbound, plan, limit)..], Rest(plan))
  {
  }

  lemma DrawnOn(a: bytes, p: seq<ReadStep>, b: bytes, q: seq<ReadStep>, c: bytes, r: seq<ReadStep>)
    requires Drawn(a, p, b, q) && Drawn(b, q, c, r)
    ensures Drawn(a, p, c, r)
  {
  }

  // A writer that takes at least one byte per call, never fails and never misreports.
  ghost predicate Reliable(plan: seq<WriteStep>) {
    forall i :: 0 <= i < |plan| ==> plan[i].Accept? && plan[i].most > 0 && plan[i].err == None
  }

  /** One end of a connection, or any other reader and writer. `inbound` holds the bytes
      the peer sends and this end has not read; `consumed` those it has. */
  class Stream {
    var inbound: bytes
    var readPlan: seq<ReadStep>
    var outbound: bytes
    var writePlan: seq<WriteStep>
    ghost var consumed: bytes

    constructor (inbound: bytes, readPlan: seq<ReadStep>, writePlan: seq<WriteStep>)
      ensures this.inbound == inbound && this.readPlan == readPlan && this.writePlan == writePlan
      ensures outbound == [] && consumed == []
    {
      this.inbound, this.readPlan, this.writePlan := inbound, readPlan, writePlan;
      outbound, consumed := [], [];
    }

    // Reads into the front of p, as source.Read(p[:limit]) does.
    method Read(p: array<byte>, limit: nat) returns (n: nat, err: Option<IoError>)
      requires limit <= p.Length
      modifies this`inbound, this`readPlan, this`consumed, p
      ensures n == ReadCount(old(inbound), old(readPlan), limit) && err == ReadError(old(readPlan))
      ensures p[..n] == old(inbound)[..n] && p[n..] == old(p[n..])
      ensures inbound == old(inbound)[n..] && readPlan == Rest(old(readPlan))
      ensures consumed == old(consumed) + old(inbound)[..n]
    {
      n, err := ReadCount(inbound, readPlan, limit), ReadError(readPlan);
      forall i | 0 <= i < n {
        p[i] := inbound[i];
      }
      consumed := consumed + inbound[..n];
      inbound, readPlan := inbound[n..], Rest(readPlan);
    }

    method Write(data: bytes) returns (n: int, err: Option<IoError>)
      modifies this`outbound, this`writePlan
      ensures writePlan == Rest(old(writePlan))
      ensures old(writePlan) == [] ==> n == |data| && err == None && outbound == old(outbound) + data
      ensures old(writePlan) != [] && old(writePlan)[0].Accept? ==>
                n == Min(old(writePlan)[0].most, |data|) && err == old(writePlan)[0].err
      ensures old(writePlan) != [] && old(writePlan)[0].Misreport? ==> !(0 <= n <= |data|)
      ensures outbound == old(outbound) + if 0 <= n <= |data| then data[..n] else []
    {
      if writePlan == [] {
        n, err := |data|, None;
      } else {
        match writePlan[0]
        case Accept(most, e) => n, err := Min(most, |data|), e;
        case Misreport => n, err := |data| + 1, None;
      }
      outbound := outbound + if 0 <= n <= |data| then data[..n] else [];
      writePlan := Rest(writePlan);
    }

    /** Writes all of data or fails. What went out before a failure is a prefix of data. */
    method WriteAll(data: bytes) returns (err: Option<IoError>)
      modifies this`outbound, this`writePlan
      ensures err == None ==> outbound == old(outbound) + data
      ensures exists k :: 0 <= k <= |data| && outbound == old(outbound) + data[..k]
      ensures Reliable(old(writePlan)) ==> err == None && Reliable(writePlan)
    {
      var sent := 0;
      err := None;
      while sent < |data|
        invariant 0 <= sent <= |data|
        invariant outbound == old(outbound) + data[..sent]
        invariant Reliable(old(writePlan)) ==> Reliable(writePlan)
        decreases |data| - sent
      {
        var n, e := Write(data[sent..]);
        if n < 0 || n > |data| - sent {
          return Some(InvalidCount);
        }
        assert data[..sent] + data[sent..][..n] == data[..sent + n];
        sent := sent + n;
        if e.Some? {
          return e;
        }
        if n == 0 {
          return Some(ShortWrite);
        }
      }
      assert data[..sent] == data;
    }
  }
}
