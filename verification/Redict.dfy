/** The Redict server: hashes with optional deadlines, counters and a clock in milliseconds. */
module Redict {
  import opened Common

  datatype Entry = Entry(doc: Document, deadline: Option<nat>)

  type Hashes = map<string, Entry>

  predicate Live(kv: Hashes, key: string, now: nat) {
    key in kv && (kv[key].deadline.Some? ==> now < kv[key].deadline.value)
  }

  /** HSET writes every field of the struct.  A live key keeps its deadline; an expired one is
      gone, so the key is created afresh, without a deadline. */
  function HSet(kv: Hashes, key: string, doc: Document, now: nat): Hashes {
    kv[key := Entry(doc, if Live(kv, key, now) then kv[key].deadline else None)]
  }

  /** EXPIRE on an absent key changes nothing and is not an error. */
  function Expire(kv: Hashes, key: string, ttl: nat, now: nat): Hashes {
    if Live(kv, key, now) then kv[key := kv[key].(deadline := Some(now + ttl))] else kv
  }

  /** HGETALL scanned into a fresh struct: an absent key leaves the zero value. */
  function HGetAll(kv: Hashes, key: string, now: nat): Document {
    if Live(kv, key, now) then kv[key].doc else ZERO
  }

  function Count(counters: map<string, nat>, key: string): nat {
    if key in counters then counters[key] else 0
  }

  function Incr(counters: map<string, nat>, key: string): map<string, nat> {
    counters[key := Count(counters, key) + 1]
  }

  /** What a write means for readers: it is readable at once; it stays readable exactly as long as the
      entry it overwrote was going to, or for ever if nothing live was there; and no other key
      notices. */
  lemma WriteInherits(kv: Hashes, key: string, doc: Document, now: nat, later: nat, other: string)
    requires now <= later
    ensures var kv' := HSet(kv, key, doc, now);
            && HGetAll(kv', key, now) == doc && Live(kv', key, now)
            && (Live(kv', key, later) <==> !Live(kv, key, now) || Live(kv, key, later))
            && (Live(kv', key, later) ==> HGetAll(kv', key, later) == doc)
            && (other != key ==>
                  HGetAll(kv', other, later) == HGetAll(kv, other, later)
                  && (Live(kv', other, later) <==> Live(kv, other, later)))
  {
  }

  /** What a deadline means for readers: a live key is readable for exactly `ttl` more, whatever its
      deadline was; a key that is not live stays unreadable; documents and other keys are kept. */
  lemma DeadlineBounds(kv: Hashes, key: string, ttl: nat, now: nat, later: nat, other: string)
    requires now <= later
    ensures var kv' := Expire(kv, key, ttl, now);
            && (Live(kv', key, later) <==> Live(kv, key, now) && later < now + ttl)
            && (Live(kv', key, later) ==> HGetAll(kv', key, later) == HGetAll(kv, key, now))
            && (other != key ==>
                  HGetAll(kv', other, later) == HGetAll(kv, other, later)
                  && (Live(kv', other, later) <==> Live(kv, other, later)))
  {
  }

  function IncrAll(counters: map<string, nat>, keys: seq<string>): map<string, nat> {
    if keys == [] then counters else Incr(IncrAll(counters, keys[..|keys| - 1]), keys[|keys| - 1])
  }

  /** A counter reads as the number of INCRs executed on it, from its absence on, in whatever order
      those on other counters come between. */
  lemma {:induction false} CounterCounts(counters: map<string, nat>, keys: seq<string>, key: string)
    ensures Count(IncrAll(counters, keys), key) == Count(counters, key) + multiset(keys)[key]
    decreases |keys|
  {
    if keys != [] {
      CounterCounts(counters, keys[..|keys| - 1], key);
      assert keys == keys[..|keys| - 1] + [keys[|keys| - 1]];
    }
  }

  class Server {
    var hashes: Hashes
    var counters: map<string, nat>
    var now: nat

    constructor ()
      ensures hashes == map[] && counters == map[] && now == 0
    {
      hashes, counters, now := map[], map[], 0;
    }

    /** Time passes between two commands of a client. */
    method Wait(millis: nat)
      modifies this`now
      ensures now == old(now) + millis
    {
      now := now + millis;
    }

    method HSET(key: string, doc: Document, call: Call) returns (ok: bool)
      modifies this`hashes
      ensures hashes == if call.reached then HSet(old(hashes), key, doc, now) else old(hashes)
      ensures ok == call.response.Acked?
    {
      if call.reached { hashes := HSet(hashes, key, doc, now); }
      ok := call.response.Acked?;
    }

    method EXPIRE(key: string, ttl: nat, call: Call) returns (ok: bool)
      modifies this`hashes
      ensures hashes == if call.reached then Expire(old(hashes), key, ttl, now) else old(hashes)
      ensures ok == call.response.Acked?
    {
      if call.reached { hashes := Expire(hashes, key, ttl, now); }
      ok := call.response.Acked?;
    }

    method INCR(key: string, call: Call) returns (ok: bool)
      modifies this`counters
      ensures counters == if call.reached then Incr(old(counters), key) else old(counters)
      ensures ok == call.response.Acked?
    {
      if call.reached { counters := Incr(counters, key); }
      ok := call.response.Acked?;
    }
  }
}
