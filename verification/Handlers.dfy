/** The handlers as the repository writes them are runs of the pipeline: executed without
    interference, each produces exactly the steps of its process, with the same effect on the
    queues, the store and the counters. */
module Handlers {
  import opened Common
  import opened Pipeline
  import C = Cacher
  import D = DocStore
  import G = Gateway
  import K = Keywords
  import R = Redict
  import S = Sealer
  import W = WorkQueue

  predicate Final(call: Call) { call.Possible() && !call.response.Again? }

  // ---------- PDFSign ----------

  /** The steps of one PDFSign call in slot `g`. */
  function SignEvents(g: nat, pdf: string, id: string, publish: Call, incr: Call): seq<Event> {
    if !publish.response.Acked? then [Request(g, id, pdf), PublishJob(g, publish)]
    else [Request(g, id, pdf), PublishJob(g, publish), Count(g, incr)]
  }

  lemma SignIsRun(c: Config, s: State, g: nat, pdf: string, id: string, publish: Call, incr: Call)
    requires GatewayEnabled(s, Request(g, id, pdf)) && Final(publish) && Final(incr)
    ensures var es := SignEvents(g, pdf, id, publish, incr);
            Possible(c, s, es)
            && var end := Run(c, s, es);
               var (jobs, counters, result) := G.SignEffect(s.seal, s.counters, G.SIGNINGS,
                                                             pdf, id, publish, incr, s.now, c.window);
               && end.seal == jobs && end.counters == counters
               && end.returned == s.returned + (if result.Accepted? then [result.transactionId] else [])
               && end.cache == s.cache && end.kv == s.kv && end.now == s.now && end.saved == s.saved
               && end.sealers == s.sealers && end.cachers == s.cachers
               && end.counted == s.counted + (if publish.response.Acked? && incr.reached then [id] else [])
               && end.requests == s.requests[id := pdf] && end.gateways == s.gateways[g := GIdle]
  {
    hide Enabled, Step, SealerEnabled, CacherEnabled, K.IsUuid, W.Publish, R.Incr;
    var s1 := GatewayStep(c, s, Request(g, id, pdf));
    var s2 := GatewayStep(c, s1, PublishJob(g, publish));
    GatewayStepIsStep(c, s, Request(g, id, pdf));
    GatewayStepIsStep(c, s1, PublishJob(g, publish));
    RunThen(c, s, [], Request(g, id, pdf));
    RunThen(c, s, [Request(g, id, pdf)], PublishJob(g, publish));
    assert [] + [Request(g, id, pdf)] == [Request(g, id, pdf)];
    assert [Request(g, id, pdf)] + [PublishJob(g, publish)] == [Request(g, id, pdf), PublishJob(g, publish)];
    if publish.response.Acked? {
      GatewayStepIsStep(c, s2, Count(g, incr));
      RunThen(c, s, [Request(g, id, pdf), PublishJob(g, publish)], Count(g, incr));
      assert [Request(g, id, pdf), PublishJob(g, publish)] + [Count(g, incr)] == SignEvents(g, pdf, id, publish, incr);
    }
  }

  // ---------- help_request ----------

  /** The steps of sealer `i` on job `n`; an exception is the crash of the process. */
  function HelpEvents(i: nat, n: nat, reply: Option<SealReply>, publish: Call, ackArrives: bool): seq<Event> {
    if reply.None? then [Fetch(i, n), SealerCrash(i)]
    else if !publish.response.Acked? then [Fetch(i, n), Reply(i, reply.value), PublishReply(i, publish)]
    else [Fetch(i, n), Reply(i, reply.value), PublishReply(i, publish), AckJob(i, ackArrives)]
  }

  /** The step is an exception in `help_request`: the process goes down. */
  predicate Raises(e: Event) { e.SealerCrash? || (e.PublishReply? && !e.call.response.Acked?) }

  lemma HelpSurvivesIff(s: State, i: nat, n: nat, reply: Option<SealReply>, publish: Call, ackArrives: bool,
                        window: nat)
    requires n < |s.seal.log|
    ensures var es := HelpEvents(i, n, reply, publish, ackArrives);
            S.HelpEffect(s.seal, s.cache, n, reply, publish, ackArrives, s.now, window).2
            <==> forall k :: 0 <= k < |es| ==> !Raises(es[k])
  {
    hide W.Publish;
    var es := HelpEvents(i, n, reply, publish, ackArrives);
    assert if reply.None? then Raises(es[1]) else Raises(es[2]) == !publish.response.Acked?;
  }

  /** Up to the publish. */
  lemma Published(c: Config, s: State, i: nat, n: nat, reply: SealReply, publish: Call)
    requires i < |c.backends| && SealerEnabled(c, s, Fetch(i, n)) && n < |s.seal.log| && Final(publish)
    requires s.seal.log[n].payload.Json? && S.Replies(c.lib, c.backends[i], s.seal.log[n].payload.value, reply)
    ensures var es := [Fetch(i, n), Reply(i, reply), PublishReply(i, publish)];
            var id := s.seal.log[n].id;
            Possible(c, s, es)
            && Run(c, s, es)
               == s.(cache := if publish.reached then W.Publish(s.cache, id, Json(reply), s.now, c.window) else s.cache,
                     attempts := if publish.reached then s.attempts + [(id, s.now)] else s.attempts,
                     sealers := s.sealers[i := if publish.response.Acked? then SPublished(n) else SIdle])
  {
    hide Enabled, Step, GatewayEnabled, CacherEnabled, S.Replies, W.Publish;
    var f, r, p := Fetch(i, n), Reply(i, reply), PublishReply(i, publish);
    var s1 := SealerStep(c, s, f);
    var s2 := SealerStep(c, s1, r);
    SealerStepIsStep(c, s, f);
    SealerStepIsStep(c, s1, r);
    SealerStepIsStep(c, s2, p);
    RunThen(c, s, [], f);
    RunThen(c, s, [f], r);
    RunThen(c, s, [f, r], p);
    assert [] + [f] == [f] && [f] + [r] == [f, r] && [f, r] + [p] == [f, r, p];
    var pc := if publish.response.Acked? then SPublished(n) else SIdle;
    assert s.sealers[i := SHolding(n)][i := SSealed(n, reply)][i := pc] == s.sealers[i := pc];
  }

  /** A job that raises before there is a reply. */
  lemma Raised(c: Config, s: State, i: nat, n: nat)
    requires i < |c.backends| && SealerEnabled(c, s, Fetch(i, n))
    ensures var es := [Fetch(i, n), SealerCrash(i)];
            Possible(c, s, es) && Run(c, s, es) == s.(sealers := s.sealers[i := SIdle])
  {
    hide Enabled, Step, GatewayEnabled, CacherEnabled;
    var f, x := Fetch(i, n), SealerCrash(i);
    SealerStepIsStep(c, s, f);
    SealerStepIsStep(c, SealerStep(c, s, f), x);
    RunThen(c, s, [], f);
    RunThen(c, s, [f], x);
    assert [] + [f] == [f] && [f] + [x] == [f, x];
    assert s.sealers[i := SHolding(n)][i := SIdle] == s.sealers[i := SIdle];
  }

  lemma HelpIsRun(c: Config, s: State, i: nat, n: nat, reply: Option<SealReply>, publish: Call, ackArrives: bool)
    requires i < |c.backends| && SealerEnabled(c, s, Fetch(i, n)) && n < |s.seal.log| && Final(publish)
    requires reply.Some? ==> s.seal.log[n].payload.Json?
                             && S.Replies(c.lib, c.backends[i], s.seal.log[n].payload.value, reply.value)
    ensures var es := HelpEvents(i, n, reply, publish, ackArrives);
            Possible(c, s, es)
            && var end := Run(c, s, es);
               var (jobs, cache, alive) := S.HelpEffect(s.seal, s.cache, n, reply,
                                                        publish, ackArrives, s.now, c.window);
               && end.seal == jobs && end.cache == cache && end.sealers == s.sealers[i := SIdle]
               && end.kv == s.kv && end.counters == s.counters && end.now == s.now && end.saved == s.saved
               && end.cachers == s.cachers && end.gateways == s.gateways && end.requests == s.requests
               && end.returned == s.returned
               && end.attempts == s.attempts
                                  + (if reply.Some? && publish.reached then [(s.seal.log[n].id, s.now)] else [])
               && (alive <==> forall k :: 0 <= k < |es| ==> !Raises(es[k]))
  {
    HelpSurvivesIff(s, i, n, reply, publish, ackArrives, c.window);
    hide Raises, Enabled, Step, GatewayEnabled, CacherEnabled, S.Replies, W.Publish;
    var f := Fetch(i, n);
    if reply.None? {
      Raised(c, s, i, n);
    } else {
      Published(c, s, i, n, reply.value, publish);
      var es := [f, Reply(i, reply.value), PublishReply(i, publish)];
      if publish.response.Acked? {
        SealerStepIsStep(c, Run(c, s, es), AckJob(i, ackArrives));
        RunThen(c, s, es, AckJob(i, ackArrives));
        assert es + [AckJob(i, ackArrives)] == HelpEvents(i, n, reply, publish, ackArrives);
      }
    }
  }

  /** Conversely, every `Reply` step is a call of `Seal` that the libraries can cause, and one with a
      reply of a healthy sealer is a call in which nothing fails on the sealer's side. */
  lemma ReplyIsSeal(c: Config, s: State, i: nat, reply: SealReply)
    requires SealerEnabled(c, s, Reply(i, reply))
    ensures var req := s.seal.log[s.sealers[i].n].payload.value;
            && (exists io :: S.Consistent(c.lib, req, io) && S.Outcome(c.lib, c.backends[i], req, io) == Some(reply))
            && (S.Answers(c.lib, c.backends[i], req, reply) ==>
                  exists io :: S.Consistent(c.lib, req, io) && S.Healthy(c.lib, req, io)
                               && S.Outcome(c.lib, c.backends[i], req, io) == Some(reply))
  {
    hide S.Replies, S.Answers, S.Consistent, S.Healthy, S.Outcome;
    S.RepliesExact(c.lib, c.backends[i], s.seal.log[s.sealers[i].n].payload.value, reply);
  }

  // ---------- the Consume callback ----------

  /** SaveSigned by cacher `j`, and the nak that follows a failure.  Without an id, HSET is not
      attempted. */
  function SaveEvents(j: nat, doc: Document, io: C.Io): seq<Event> {
    if doc.transactionId == "" || !io.hset.response.Acked? then [HSet(j, io.hset), NakSave(j, io.nakAfterSave)]
    else if !io.expire.response.Acked? then
      [HSet(j, io.hset), Tick(io.delay), Expire(j, io.expire), NakSave(j, io.nakAfterSave)]
    else [HSet(j, io.hset), Tick(io.delay), Expire(j, io.expire)]
  }

  /** The steps of cacher `j` on message `n`. */
  function ConsumeEvents(j: nat, n: nat, doc: Document, io: C.Io): seq<Event> {
    [Deliver(j, n), Decode(j, io.nakAfterDecode)] + SaveEvents(j, doc, io) + [AckReply(j, io.ack.Arrived?)]
  }

  lemma Delivered(c: Config, s: State, j: nat, n: nat, nakSent: bool)
    requires CacherEnabled(s, Deliver(j, n)) && n < |s.cache.log|
    ensures var es := [Deliver(j, n), Decode(j, nakSent)];
            var payload := s.cache.log[n].payload;
            Possible(c, s, es) && Run(c, s, es)
              == s.(cachers := s.cachers[j := CSaving(n, C.Decoded(payload), payload.Malformed? && nakSent)])
  {
    hide Enabled, Step, GatewayEnabled, SealerEnabled, C.Decoded;
    var d, e := Deliver(j, n), Decode(j, nakSent);
    CacherStepIsStep(c, s, d);
    RunThen(c, s, [], d);
    assert [] + [d] == [d];
    CacherStepIsStep(c, CacherStep(s, d), e);
    RunThen(c, s, [d], e);
    assert [d] + [e] == [d, e];
    var payload := s.cache.log[n].payload;
    assert s.cachers[j := CHolding(n)][j := CSaving(n, C.Decoded(payload), payload.Malformed? && nakSent)]
        == s.cachers[j := CSaving(n, C.Decoded(payload), payload.Malformed? && nakSent)];
  }

  /** What SaveSigned leaves behind: the store as `DocStore.SaveSigned` says, and a cacher about to
      ack, having nakked if it failed and could. */
  ghost predicate AfterSave(s: State, j: nat, n: nat, doc: Document, nakked: bool, io: C.Io, end: State)
    requires j < |s.cachers|
  {
    var (kv, result) := D.SaveSigned(s.kv, doc, io.hset, io.expire, s.now, s.now + io.delay);
    && end.kv == kv && end.cache == s.cache && end.seal == s.seal && end.now == s.now + D.Elapsed(result, io.delay)
    && end.saved == s.saved + (if result.Saved? then {doc.transactionId} else {}) && end.forfeited == s.forfeited
    && end.cachers == s.cachers[j := CAcking(n, nakked || (!result.Saved? && io.nakAfterSave), result.Saved?)]
  }

  lemma HSetEffect(s: State, j: nat, call: Call)
    requires j < |s.cachers| && s.cachers[j].CSaving? && Final(call)
    ensures CacherEnabled(s, HSet(j, call))
    ensures var (pc, end) := (s.cachers[j], CacherStep(s, HSet(j, call)));
            var key := D.SignedKey(pc.doc.transactionId);
            && end.kv == (if pc.doc.transactionId != "" && call.reached then R.HSet(s.kv, key, pc.doc, s.now) else s.kv)
            && end.cachers == s.cachers[j := if pc.doc.transactionId != "" && call.response.Acked?
                                             then CExpiring(pc.n, pc.doc, pc.nakked) else CFailed(pc.n, pc.nakked)]
            && end.cache == s.cache && end.seal == s.seal && end.now == s.now
            && end.saved == s.saved && end.forfeited == s.forfeited
  {
    hide R.HSet, D.SignedKey;
  }

  lemma ExpireEffect(s: State, j: nat, call: Call)
    requires j < |s.cachers| && s.cachers[j].CExpiring? && Final(call)
    ensures CacherEnabled(s, Expire(j, call))
    ensures var (pc, end) := (s.cachers[j], CacherStep(s, Expire(j, call)));
            var key := D.SignedKey(pc.doc.transactionId);
            && end.kv == (if call.reached then R.Expire(s.kv, key, D.TTL, s.now) else s.kv)
            && end.cachers == s.cachers[j := if call.response.Acked? then CAcking(pc.n, pc.nakked, true)
                                             else CFailed(pc.n, pc.nakked)]
            && end.saved == s.saved + (if call.response.Acked? then {pc.doc.transactionId} else {})
            && end.cache == s.cache && end.seal == s.seal && end.now == s.now && end.forfeited == s.forfeited
  {
    hide R.Expire, D.SignedKey;
  }

  lemma NakEffect(s: State, j: nat, sent: bool)
    requires j < |s.cachers| && s.cachers[j].CFailed?
    ensures CacherEnabled(s, NakSave(j, sent))
    ensures CacherStep(s, NakSave(j, sent))
         == s.(cachers := s.cachers[j := CAcking(s.cachers[j].n, s.cachers[j].nakked || sent, false)])
  {
  }

  lemma SaveIsRun(c: Config, s: State, j: nat, n: nat, doc: Document, nakked: bool, io: C.Io)
    requires j < |s.cachers| && s.cachers[j] == CSaving(n, doc, nakked) && Final(io.hset) && Final(io.expire)
    ensures Possible(c, s, SaveEvents(j, doc, io))
    ensures AfterSave(s, j, n, doc, nakked, io, Run(c, s, SaveEvents(j, doc, io)))
  {
    hide Enabled, Step, GatewayEnabled, SealerEnabled, CacherEnabled, CacherStep, R.HSet, R.Expire, R.Live, D.SignedKey;
    var h, t, x, k := HSet(j, io.hset), Tick(io.delay), Expire(j, io.expire), NakSave(j, io.nakAfterSave);
    HSetEffect(s, j, io.hset);
    var s1 := CacherStep(s, h);
    CacherStepIsStep(c, s, h);
    RunThen(c, s, [], h);
    assert [] + [h] == [h];
    if doc.transactionId == "" || !io.hset.response.Acked? {
      NakEffect(s1, j, io.nakAfterSave);
      CacherStepIsStep(c, s1, k);
      RunThen(c, s, [h], k);
      assert [h] + [k] == [h, k];
    } else {
      var s2 := s1.(now := s1.now + io.delay);
      TickIsStep(c, s1, t);
      RunThen(c, s, [h], t);
      assert [h] + [t] == [h, t];
      ExpireEffect(s2, j, io.expire);
      var s3 := CacherStep(s2, x);
      CacherStepIsStep(c, s2, x);
      RunThen(c, s, [h, t], x);
      assert [h, t] + [x] == [h, t, x];
      if !io.expire.response.Acked? {
        NakEffect(s3, j, io.nakAfterSave);
        CacherStepIsStep(c, s3, k);
        RunThen(c, s, [h, t, x], k);
        assert [h, t, x] + [k] == [h, t, x, k];
      }
    }
  }

  lemma AckEffect(s: State, j: nat, arrives: bool)
    requires j < |s.cachers| && s.cachers[j].CAcking? && s.cachers[j].n < |s.cache.log|
    ensures CacherEnabled(s, AckReply(j, arrives))
    ensures var (pc, end) := (s.cachers[j], CacherStep(s, AckReply(j, arrives)));
            && end.cache == (if !pc.nakked && arrives then W.Remove(s.cache, pc.n) else s.cache)
            && end.forfeited
               == s.forfeited + (if !pc.nakked && arrives && !pc.saved then {s.cache.log[pc.n].id} else {})
            && end.kv == s.kv && end.seal == s.seal && end.now == s.now && end.saved == s.saved
            && end.cachers == s.cachers[j := CIdle]
  {
  }

  lemma ConsumeIsRun(c: Config, s: State, j: nat, n: nat, io: C.Io)
    requires CacherEnabled(s, Deliver(j, n)) && n < |s.cache.log| && Final(io.hset) && Final(io.expire)
    ensures var es := ConsumeEvents(j, n, C.Decoded(s.cache.log[n].payload), io);
            Possible(c, s, es)
            && var end := Run(c, s, es);
               var result := C.FallThrough(s.cache, s.kv, n, io, s.now);
               && end.cache == result.queue && end.kv == result.kv
               && end.cachers == s.cachers[j := CIdle] && end.seal == s.seal
               && end.now == s.now + D.Elapsed(C.Save(s.cache.log[n].payload, s.kv, io, s.now).1, io.delay)
               && end.saved
                  == s.saved + (if result.saved then {C.Decoded(s.cache.log[n].payload).transactionId} else {})
               && end.forfeited == s.forfeited
                    + (if C.NakLost(s.cache.log[n].payload, s.kv, io, s.now) && !result.saved && io.ack.Arrived?
                       then {s.cache.log[n].id} else {})
  {
    hide Enabled, Step, GatewayEnabled, SealerEnabled, CacherStep, D.SaveSigned, C.Decoded;
    var payload := s.cache.log[n].payload;
    var doc := C.Decoded(payload);
    Delivered(c, s, j, n, io.nakAfterDecode);
    var d := [Deliver(j, n), Decode(j, io.nakAfterDecode)];
    var s1 := Run(c, s, d);
    SaveIsRun(c, s1, j, n, doc, payload.Malformed? && io.nakAfterDecode, io);
    var s2 := Run(c, s1, SaveEvents(j, doc, io));
    RunConcat(c, s, d, SaveEvents(j, doc, io));
    AckEffect(s2, j, io.ack.Arrived?);
    CacherStepIsStep(c, s2, AckReply(j, io.ack.Arrived?));
    RunThen(c, s, d + SaveEvents(j, doc, io), AckReply(j, io.ack.Arrived?));
    assert s1.kv == s.kv && s1.now == s.now && s1.cache == s.cache;
  }

  // ---------- redelivery ----------

  /** The redelivery that is still to come for a retained message: one pass over it, up to the ack, by
      an idle cacher whose commands succeed, with any delay between them.  Afterwards the entry for
      the message's id has a deadline, and if it had none before, the deadline is TTL from the
      EXPIRE on. */
  lemma RedeliveryHeals(c: Config, s: State, j: nat, n: nat, delay: nat)
    requires CacherEnabled(s, Deliver(j, n)) && n < |s.cache.log|
    requires s.cache.log[n].payload.Json? && s.cache.log[n].payload.value.transactionId == s.cache.log[n].id != ""
    ensures var es := [Deliver(j, n), Decode(j, true), HSet(j, OK), Tick(delay), Expire(j, OK)];
            var key := D.SignedKey(s.cache.log[n].id);
            Possible(c, s, es)
            && var end := Run(c, s, es);
               && key in end.kv && end.kv[key].deadline.Some?
               && (key in s.kv && s.kv[key].deadline.None? ==> end.kv[key].deadline == Some(s.now + delay + D.TTL))
  {
    hide Enabled, Step, CacherEnabled, CacherStep, D.SignedKey;
    var doc := C.Decoded(s.cache.log[n].payload);
    var io := C.Io(true, OK, delay, OK, true, W.Arrived);
    var d := [Deliver(j, n), Decode(j, true)];
    assert j < |s.cachers| by { EnabledDeliver(s, j, n); }
    Delivered(c, s, j, n, true);
    SaveIsRun(c, Run(c, s, d), j, n, doc, false, io);
    RunConcat(c, s, d, SaveEvents(j, doc, io));
    assert d + SaveEvents(j, doc, io) == [Deliver(j, n), Decode(j, true), HSet(j, OK), Tick(delay), Expire(j, OK)];
  }

  lemma EnabledDeliver(s: State, j: nat, n: nat)
    requires CacherEnabled(s, Deliver(j, n))
    ensures j < |s.cachers| && s.cachers[j].CIdle? && n in s.cache.live
  {
  }

  // ---------- crashes and repeated commands ----------

  /** Any process can go down at any moment, and nothing but its own place in its handler is lost. */
  lemma CrashLosesOnlyItself(c: Config, s: State, k: nat)
    ensures k < |s.gateways| ==>
              Enabled(c, s, GatewayCrash(k))
              && Step(c, s, GatewayCrash(k)) == s.(gateways := s.gateways[k := GIdle])
    ensures k < |s.sealers| ==>
              Enabled(c, s, SealerCrash(k))
              && Step(c, s, SealerCrash(k)) == s.(sealers := s.sealers[k := SIdle])
    ensures k < |s.cachers| ==>
              Enabled(c, s, CacherCrash(k))
              && Step(c, s, CacherCrash(k)) == s.(cachers := s.cachers[k := CIdle])
  {
  }

  /** Any retained message can be handed to any idle process at any moment, also while another one is
      still working on it. */
  lemma DeliveredAgain(c: Config, s: State, k: nat, n: nat)
    ensures k < |s.sealers| && s.sealers[k].SIdle? && n in s.seal.live ==>
              Enabled(c, s, Fetch(k, n))
              && Step(c, s, Fetch(k, n)) == s.(sealers := s.sealers[k := SHolding(n)])
    ensures k < |s.cachers| && s.cachers[k].CIdle? && n in s.cache.live ==>
              Enabled(c, s, Deliver(k, n))
              && Step(c, s, Deliver(k, n)) == s.(cachers := s.cachers[k := CHolding(n)])
  {
  }

  /** The client library repeats HSET and EXPIRE.  However often a command is executed before its answer
      arrives, the entry is the one that a single execution leaves, if no time passes. */
  lemma RepeatedSave(c: Config, s: State, j: nat, again: Call, last: Call)
    requires j < |s.cachers| && (s.cachers[j].CSaving? || s.cachers[j].CExpiring?)
    requires s.cachers[j].doc.transactionId != ""
    requires again.response.Again? && again.reached && Final(last) && last.reached
    ensures var (e, f) := if s.cachers[j].CSaving? then (HSet(j, again), HSet(j, last))
                          else (Expire(j, again), Expire(j, last));
            && CacherEnabled(s, e) && CacherEnabled(s, f) && CacherEnabled(CacherStep(s, e), f)
            && CacherStep(CacherStep(s, e), f).kv == CacherStep(s, f).kv
            && CacherStep(CacherStep(s, e), f).cachers == CacherStep(s, f).cachers
            && CacherStep(CacherStep(s, e), f).cache == CacherStep(s, f).cache
            && CacherStep(CacherStep(s, e), f).saved == CacherStep(s, f).saved
  {
    hide D.SignedKey;
  }

  /** It repeats a publish, too, and deduplication makes up for it: within the window, one message. */
  lemma RepeatedPublish(c: Config, s: State, g: nat, again: Call, last: Call)
    requires g < |s.gateways| && s.gateways[g].GPublishing? && c.window > 0
    requires again.response.Again? && again.reached && Final(last) && last.reached
    ensures GatewayEnabled(s, PublishJob(g, again)) && GatewayEnabled(s, PublishJob(g, last))
    ensures var s' := GatewayStep(c, s, PublishJob(g, again));
            GatewayEnabled(s', PublishJob(g, last))
            && GatewayStep(c, s', PublishJob(g, last)) == GatewayStep(c, s, PublishJob(g, last))
  {
    var s' := GatewayStep(c, s, PublishJob(g, again));
    assert s'.gateways == s.gateways;
  }
}
