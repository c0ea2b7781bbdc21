/** What a whole reply tells whoever reads it, and the right reply where the daemon keeps the connection. */
module Answers {
  import opened Bytes
  import opened Tables
  import opened Storage
  import opened Framing
  import opened Rpc
  import opened Replies
  import opened Capture
  import Journal

  // What a whole reply to a request tells: the right answer for the tables, or why a capture failed.
  ghost predicate Told(c: Codec, b: Bodies, scene: Scene, db: Tables, o: Oracle, q: Request, evidence: bytes, reply: bytes) {
    if q.version != VERSION then Framed(c, UnsupportedProtocol(q.id), reply)
    else if q.id == "" || q.operation == "" then Framed(c, InvalidRequest(q.id), reply)
    else if q.operation == CAPTURE then
      exists r :: Framed(c, r, reply) && ToldOfCapture(b, scene, db, o, q, evidence, r)
    else if q.operation == READ_PAYLOAD then PayloadAnswer(c, b, db, scene.quiet, q, reply)
    else exists r :: PlainAnswer(b, db, scene.quiet, o, q, r) && Framed(c, r, reply)
  }

  ghost predicate ToldOfCapture(b: Bodies, scene: Scene, db: Tables, o: Oracle, q: Request, evidence: bytes, r: Response) {
    || (r.status == "error" && CaptureFailure(b, scene, db, o, q, r))
    || CaptureAnswer(b, db, o, q, evidence, r)
  }

  // The right reply where the daemon keeps the connection: an acknowledgement, if it is to a capture.
  ghost predicate RightReply(c: Codec, b: Bodies, scene: Scene, db: Tables, o: Oracle, q: Request, evidence: bytes, reply: bytes) {
    if TakesCapture(q) then exists r :: Framed(c, r, reply) && CaptureAnswer(b, db, o, q, evidence, r)
    else evidence == [] && Told(c, b, scene, db, o, q, evidence, reply)
  }

  lemma ToldIsReply(c: Codec, b: Bodies, scene: Scene, db: Tables, o: Oracle, q: Request, evidence: bytes, reply: bytes)
    requires Faithful(c) && Told(c, b, scene, db, o, q, evidence, reply)
    ensures IsReply(c, q.operation == READ_PAYLOAD, reply)
  {
    hide Faithful, IsReply, Framed, PlainAnswer, PayloadAnswer, ToldOfCapture;
    var reading := q.operation == READ_PAYLOAD;
    if q.version != VERSION {
      FrameServed(c, UnsupportedProtocol(q.id), reading, reply);
    } else if q.id == "" || q.operation == "" {
      FrameServed(c, InvalidRequest(q.id), reading, reply);
    } else if q.operation == CAPTURE {
      var r :| Framed(c, r, reply) && ToldOfCapture(b, scene, db, o, q, evidence, r);
      FrameServed(c, r, reading, reply);
    } else if reading {
      PayloadServed(c, b, db, scene.quiet, q, reply);
    } else {
      var r :| PlainAnswer(b, db, scene.quiet, o, q, r) && Framed(c, r, reply);
      FrameServed(c, r, reading, reply);
    }
  }

  lemma RightIsTold(c: Codec, b: Bodies, scene: Scene, db: Tables, o: Oracle, q: Request, evidence: bytes, reply: bytes)
    requires RightReply(c, b, scene, db, o, q, evidence, reply)
    ensures Told(c, b, scene, db, o, q, evidence, reply)
    ensures if TakesCapture(q) then EvidenceLength(evidence) == Some(|evidence|) else evidence == []
  {
    hide Framed, PlainAnswer, PayloadAnswer, CaptureAnswer, CaptureFailure, EvidenceLength;
    if TakesCapture(q) {
      var r :| Framed(c, r, reply) && CaptureAnswer(b, db, o, q, evidence, r);
      CaptureAnswerTakes(b, db, o, q, evidence, r);
      assert ToldOfCapture(b, scene, db, o, q, evidence, r);
    }
  }

  // Each right reply is one whole reply, with evidence exactly when the client will read evidence.
  lemma RightIsServed(c: Codec, b: Bodies, scene: Scene, db: Tables, o: Oracle, q: Request, evidence: bytes, reply: bytes)
    requires Faithful(c) && RightReply(c, b, scene, db, o, q, evidence, reply)
    ensures Served(c, q, evidence, reply)
  {
    RightIsTold(c, b, scene, db, o, q, evidence, reply);
    ToldIsReply(c, b, scene, db, o, q, evidence, reply);
    hide Told, RightReply, Faithful, IsReply;
  }
}
