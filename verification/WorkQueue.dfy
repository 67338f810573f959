/** A JetStream stream with work-queue retention and explicit acknowledgement, as both `createStream`
    functions configure it. */
module WorkQueue {
  import opened Common

  /** A stored message: its `Nats-Msg-Id` header, its body and the time it was stored. */
  datatype Msg<+T> = Msg(id: string, payload: Payload<T>, at: nat)

  /** `log` is everything ever stored, indexed by sequence number; `live` the sequence numbers
      still retained; `dedup` the time at which a message with that id was last stored. */
  datatype Queue<+T> = Queue(log: seq<Msg<T>>, live: set<nat>, dedup: map<string, nat>)

  function Empty<T>(): Queue<T> { Queue([], {}, map[]) }

  predicate InWindow<T>(q: Queue<T>, id: string, now: nat, window: nat) {
    id in q.dedup && now < q.dedup[id] + window
  }

  /** A publish inside the deduplication window succeeds without storing. */
  function Publish<T>(q: Queue<T>, id: string, payload: Payload<T>, now: nat, window: nat): Queue<T> {
    if InWindow(q, id, now, window) then q
    else Queue(q.log + [Msg(id, payload, now)], q.live + {|q.log|}, q.dedup[id := now])
  }

  /** Work-queue retention: a message goes away when it is acked, and only then. */
  function Remove<T>(q: Queue<T>, n: nat): Queue<T> { q.(live := q.live - {n}) }

  predicate Stored<T>(q: Queue<T>, id: string) { exists n :: 0 <= n < |q.log| && q.log[n].id == id }

  predicate Retained<T>(q: Queue<T>, id: string) {
    exists n :: n in q.live && n < |q.log| && q.log[n].id == id
  }

  /** Everything whose id was ever deduplicated has been stored. */
  ghost predicate DedupStored<T>(q: Queue<T>) { forall id :: id in q.dedup ==> Stored(q, id) }

  lemma PublishStores<T>(q: Queue<T>, id: string, payload: Payload<T>, now: nat, window: nat)
    requires DedupStored(q)
    ensures var q' := Publish(q, id, payload, now, window);
            Stored(q', id) && DedupStored(q') && q.log <= q'.log
            && (forall other :: Stored(q, other) ==> Stored(q', other))
  {
    var q' := Publish(q, id, payload, now, window);
    if !InWindow(q, id, now, window) {
      assert q'.log[|q.log|].id == id;
      forall other | Stored(q, other) ensures Stored(q', other) {
        var k :| 0 <= k < |q.log| && q.log[k].id == other;
        assert q'.log[k].id == other;
      }
    }
  }

  /** Deduplication, seen from the publisher: inside one window after a publish, publishing under the
      same id again changes nothing, whatever the body and however often; once the window is over it
      stores exactly one more message. */
  lemma PublishOncePerWindow<T>(q: Queue<T>, id: string, first: Payload<T>, again: Payload<T>,
                                t1: nat, t2: nat, window: nat)
    requires t1 <= t2 && (id in q.dedup ==> q.dedup[id] <= t1)
    ensures var q1 := Publish(q, id, first, t1, window);
            var stored := if InWindow(q, id, t1, window) then q.dedup[id] else t1;
            var q2 := Publish(q1, id, again, t2, window);
            if t2 < stored + window then q2 == q1
            else q2.log == q1.log + [Msg(id, again, t2)] && q2.live == q1.live + {|q1.log|}
  {
  }

  /** The server side, with the clock it stamps messages with. */
  class Stream<T> {
    var q: Queue<T>
    var now: nat
    const window: nat

    constructor (window: nat)
      ensures q == Empty<T>() && now == 0 && this.window == window
    {
      q, now, this.window := Empty<T>(), 0, window;
    }

    method Send(id: string, payload: Payload<T>, call: Call) returns (ok: bool)
      modifies this`q
      ensures q == if call.reached then Publish(old(q), id, payload, now, window) else old(q)
      ensures ok == call.response.Acked?
    {
      if call.reached { q := Publish(q, id, payload, now, window); }
      ok := call.response.Acked?;
    }
  }

  /** What becomes of an answer: the connection refuses it, or it is lost on the way, or it arrives. */
  datatype Sending = Unsent | Lost | Arrived

  /** One delivery of a message to a client.  The client library remembers whether a terminal
      answer has been sent on it: after that, `Nak` and `Ack` are refused locally.  The flag is
      only set when the answer could be handed to the connection. */
  class Delivery<T> {
    const stream: Stream<T>
    const seqno: nat
    var ackd: bool

    constructor (stream: Stream<T>, seqno: nat)
      ensures this.stream == stream && this.seqno == seqno && !ackd
    {
      this.stream, this.seqno, ackd := stream, seqno, false;
    }

    method Nak(sent: bool)
      modifies this
      ensures ackd == (old(ackd) || sent)
    {
      if !ackd && sent { ackd := true; }
    }

    method Ack(how: Sending)
      modifies this, stream`q
      ensures stream.q == if !old(ackd) && how.Arrived? then Remove(old(stream.q), seqno) else old(stream.q)
      ensures ackd == (old(ackd) || !how.Unsent?)
    {
      if !ackd && !how.Unsent? {
        if how.Arrived? { stream.q := Remove(stream.q, seqno); }
        ackd := true;
      }
    }
  }
}
