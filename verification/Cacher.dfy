/** The cache consumer (internal/apigw/stream/cache_stream.go).  Its callback has no `return` after a
    `Nak`: it goes on to save and finally to `Ack`, and relies on the client library refusing a
    second terminal answer.  This module says what that is worth. */
module Cacher {
  import opened Common
  import D = DocStore
  import R = Redict
  import W = WorkQueue

  /** What JSON decoding leaves in the document, and the three fields passed on to `SaveSigned`. */
  function Decoded(payload: Payload<SealReply>): Document {
    var r := if payload.Json? then payload.value else payload.partial;
    DocOf(r)
  }

  function DocOf(r: SealReply): Document {
    Document(r.transactionId, r.data, r.sealerBackend, "", 0, "")
  }

  /** The environment of one callback: whether each `Nak` can be handed to the connection, how the
      two Redict commands go and how long after the first the second is executed, and what becomes
      of an `Ack`. */
  datatype Io = Io(nakAfterDecode: bool, hset: Call, delay: nat, expire: Call, nakAfterSave: bool, ack: W.Sending)

  datatype Outcome = Outcome(queue: W.Queue<SealReply>, kv: R.Hashes, saved: bool)

  function Save(payload: Payload<SealReply>, kv: R.Hashes, io: Io, now: nat): (R.Hashes, D.SaveResult) {
    D.SaveSigned(kv, Decoded(payload), io.hset, io.expire, now, now + io.delay)
  }

  /** The callback as written. */
  function FallThrough(q: W.Queue<SealReply>, kv: R.Hashes, n: nat, io: Io, now: nat): Outcome
    requires n < |q.log|
  {
    var payload := q.log[n].payload;
    var nakked := payload.Malformed? && io.nakAfterDecode;
    var (kv', result) := Save(payload, kv, io, now);
    var nakked' := nakked || (!result.Saved? && io.nakAfterSave);
    Outcome(if !nakked' && io.ack.Arrived? then W.Remove(q, n) else q, kv', result.Saved?)
  }

  /** The callback as its author may have meant it: return after the first `Nak`. */
  function EarlyReturn(q: W.Queue<SealReply>, kv: R.Hashes, n: nat, io: Io, now: nat): Outcome
    requires n < |q.log|
  {
    var payload := q.log[n].payload;
    if payload.Malformed? then Outcome(q, kv, false) else
    var (kv', result) := Save(payload, kv, io, now);
    if !result.Saved? then Outcome(q, kv', false) else
    Outcome(if io.ack.Arrived? then W.Remove(q, n) else q, kv', true)
  }

  /** A failure whose every `Nak` got stuck on the client side, so that the closing `Ack` is the
      first terminal answer the server sees. */
  predicate NakLost(payload: Payload<SealReply>, kv: R.Hashes, io: Io, now: nat) {
    var failed := !Save(payload, kv, io, now).1.Saved?;
    && (payload.Malformed? || failed)
    && (payload.Malformed? ==> !io.nakAfterDecode)
    && (failed ==> !io.nakAfterSave)
  }

  /** The two versions leave the stream alike for exactly the runs in which no failure's naks are
      all lost while the ack gets through; and they leave the store alike for every decodable
      message. */
  lemma FallThroughIsEarlyReturn(q: W.Queue<SealReply>, kv: R.Hashes, n: nat, io: Io, now: nat)
    requires n in q.live && n < |q.log|
    ensures FallThrough(q, kv, n, io, now).queue == EarlyReturn(q, kv, n, io, now).queue
            <==> !(NakLost(q.log[n].payload, kv, io, now) && io.ack.Arrived?)
    ensures q.log[n].payload.Json? ==> FallThrough(q, kv, n, io, now).kv == EarlyReturn(q, kv, n, io, now).kv
                                       && FallThrough(q, kv, n, io, now).saved == EarlyReturn(q, kv, n, io, now).saved
  {
    assert n !in W.Remove(q, n).live;
  }

  /** A message is removed only after a successful decode and save, under the same condition. */
  lemma RemovedOnlyIfSaved(q: W.Queue<SealReply>, kv: R.Hashes, n: nat, io: Io, now: nat)
    requires n in q.live && n < |q.log|
    ensures (n !in FallThrough(q, kv, n, io, now).queue.live ==>
               q.log[n].payload.Json? && FallThrough(q, kv, n, io, now).saved)
            <==> !(NakLost(q.log[n].payload, kv, io, now) && io.ack.Arrived?)
  {
  }

  /** The condition is not vacuous: a Redict failure during a broken connection to NATS that is
      back when the ack is sent drops the only copy of the reply, and nothing has been saved. */
  lemma LostNakDropsMessage(reply: SealReply, now: nat)
    ensures var q := W.Queue([W.Msg(reply.transactionId, Json(reply), now)], {0}, map[reply.transactionId := now]);
            var io := Io(true, Call(false, Errored), 0, Call(false, Errored), false, W.Arrived);
            var end := FallThrough(q, map[], 0, io, now);
            end.queue.live == {} && !end.saved && end.kv == map[]
            && EarlyReturn(q, map[], 0, io, now).queue == q
  {
  }

  /** On an undecodable message the versions can differ in the store: what the decoder managed to
      fill in is saved although the message is refused. */
  lemma PartialDocumentIsSaved(partial: SealReply, now: nat)
    requires partial.transactionId != ""
    ensures var q := W.Queue([W.Msg(partial.transactionId, Malformed(partial), now)], {0},
                             map[partial.transactionId := now]);
            var io := Io(true, OK, 0, OK, true, W.Arrived);
            var end := FallThrough(q, map[], 0, io, now);
            end.queue == q && D.GetSigned(end.kv, partial.transactionId, now)
                              == Document(partial.transactionId, partial.data, partial.sealerBackend, "", 0, "")
            && EarlyReturn(q, map[], 0, io, now).kv == map[]
  {
  }

  /** The stream service owns the consumer; `doc` is its `kv.Doc`. */
  class CacheStream {
    const doc: D.Doc
    const stream: W.Stream<SealReply>

    constructor (doc: D.Doc, stream: W.Stream<SealReply>)
      ensures this.doc == doc && this.stream == stream
    {
      this.doc, this.stream := doc, stream;
    }

    /** The callback passed to `Consume`, run on one delivery. */
    method OnMessage(m: W.Delivery<SealReply>, io: Io) returns (result: D.SaveResult)
      requires m.stream == stream && !m.ackd && m.seqno < |stream.q.log|
      modifies m, stream`q, doc.client`hashes, doc.client`now
      ensures Outcome(stream.q, doc.client.hashes, result.Saved?)
           == FallThrough(old(stream.q), old(doc.client.hashes), m.seqno, io, old(doc.client.now))
      ensures doc.client.now == old(doc.client.now) + D.Elapsed(result, io.delay)
      ensures var payload := old(stream.q).log[m.seqno].payload;
              var r := if payload.Json? then payload.value else payload.partial;
              (doc.client.hashes, result)
              == D.SaveSigned(old(doc.client.hashes), Document(r.transactionId, r.data, r.sealerBackend, "", 0, ""),
                              io.hset, io.expire, old(doc.client.now), old(doc.client.now) + io.delay)
      ensures var malformed := old(stream.q).log[m.seqno].payload.Malformed?;
              var nakked := (malformed && io.nakAfterDecode) || (!result.Saved? && io.nakAfterSave);
              stream.q == old(stream.q).(live := old(stream.q).live
                                                 - if !nakked && io.ack.Arrived? then {m.seqno} else {})
    {
      var payload := stream.q.log[m.seqno].payload;
      if payload.Malformed? {
        m.Nak(io.nakAfterDecode);
      }
      result := doc.Save(Decoded(payload), io.hset, io.expire, io.delay);
      if !result.Saved? {
        m.Nak(io.nakAfterSave);
      }
      m.Ack(io.ack);
    }
  }
}
