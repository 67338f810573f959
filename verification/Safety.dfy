/** What every step of the pipeline keeps, and the safety theorems over whole runs. */
module Safety {
  import opened Common
  import opened Pipeline
  import C = Cacher
  import D = DocStore
  import K = Keywords
  import P = Pdf
  import R = Redict
  import S = Sealer
  import W = WorkQueue

  // ---------- the invariant ----------

  /** Sequence numbers in use exist. */
  ghost predicate Shape(c: Config, s: State) {
    && |s.sealers| == |c.backends| && |s.cachers| == c.cachers
    && (forall n :: n in s.seal.live ==> n < |s.seal.log|)
    && (forall n :: n in s.cache.live ==> n < |s.cache.log|)
    && (forall i :: 0 <= i < |s.sealers| && !s.sealers[i].SIdle? ==> s.sealers[i].n < |s.seal.log|)
    && (forall j :: 0 <= j < |s.cachers| && !s.cachers[j].CIdle? ==> s.cachers[j].n < |s.cache.log|)
  }

  function Job(requests: map<string, string>, id: string): SealRequest
    requires id in requests
  {
    SealRequest(id, requests[id])
  }

  predicate JobOk(requests: map<string, string>, m: W.Msg<SealRequest>) {
    m.id in requests && m.payload == Json(Job(requests, m.id))
  }

  ghost predicate GatewayOk(s: State, pc: GatewayPc) {
    match pc
    case GIdle => true
    case GPublishing(id, pdf) => id in s.requests && s.requests[id] == pdf
    case GCounting(id) => W.Stored(s.seal, id)
  }

  /** Every message on SEAL carries the PDF its id was drawn for, under that id. */
  ghost predicate Jobs(s: State) {
    && (forall id :: id in s.requests ==> K.IsUuid(id))
    && (forall n :: 0 <= n < |s.seal.log| ==> JobOk(s.requests, s.seal.log[n]))
    && (forall g :: 0 <= g < |s.gateways| ==> GatewayOk(s, s.gateways[g]))
    && W.DedupStored(s.seal)
  }

  ghost predicate ReplyTo(c: Config, s: State, id: string, reply: SealReply) {
    && W.Stored(s.seal, id) && id in s.requests
    && reply.sealerBackend in c.backends
    && S.Replies(c.lib, reply.sealerBackend, Job(s.requests, id), reply)
  }

  ghost predicate ReplyOk(c: Config, s: State, m: W.Msg<SealReply>) {
    m.payload.Json? && ReplyTo(c, s, m.id, m.payload.value)
  }

  ghost predicate SealerOk(c: Config, s: State, pc: SealerPc) {
    pc.SSealed? ==> pc.n < |s.seal.log| && ReplyTo(c, s, s.seal.log[pc.n].id, pc.reply)
  }

  ghost predicate CacherOk(s: State, pc: CacherPc) {
    match pc
    case CIdle => true
    case CHolding(n) => true
    case CSaving(n, doc, nakked) => !nakked && n < |s.cache.log| && doc == C.Decoded(s.cache.log[n].payload)
    case CExpiring(n, doc, nakked) => !nakked && n < |s.cache.log| && doc == C.Decoded(s.cache.log[n].payload)
    case CFailed(n, nakked) => !nakked
    case CAcking(n, nakked, saved) => saved ==> !nakked
  }

  /** Every message on CACHE, and every document in a cacher's hands, is a reply of some sealer to the
      job of the same id. */
  ghost predicate Replies(c: Config, s: State) {
    && (forall n :: 0 <= n < |s.cache.log| ==> ReplyOk(c, s, s.cache.log[n]))
    && (forall i :: 0 <= i < |s.sealers| ==> SealerOk(c, s, s.sealers[i]))
    && (forall j :: 0 <= j < |s.cachers| ==> CacherOk(s, s.cachers[j]))
  }

  /** The reply for `id` is safe: retained on CACHE, or saved, or given up by an ack that followed
      lost naks. */
  ghost predicate Settled(s: State, id: string) {
    W.Retained(s.cache, id) || id in s.saved || id in s.forfeited
  }

  ghost predicate Kept(s: State) {
    && (forall id :: W.Stored(s.seal, id) ==> W.Retained(s.seal, id) || Settled(s, id))
    && (forall id :: id in s.cache.dedup ==> Settled(s, id))
    && (forall i :: 0 <= i < |s.sealers| && s.sealers[i].SPublished? && s.sealers[i].n < |s.seal.log|
                    ==> Settled(s, s.seal.log[s.sealers[i].n].id))
    && (forall j :: 0 <= j < |s.cachers| && s.cachers[j].CAcking? && s.cachers[j].saved
                    && s.cachers[j].n < |s.cache.log|
                    ==> s.cache.log[s.cachers[j].n].id in s.saved)
  }

  ghost predicate Written(s: State, doc: Document) {
    exists n :: 0 <= n < |s.cache.log| && C.Decoded(s.cache.log[n].payload) == doc
  }

  /** Every entry sits under the key of its own id and was written from a message on CACHE. */
  ghost predicate Store(s: State) {
    && (forall key :: key in s.kv ==> s.kv[key].doc in s.writes && key == D.SignedKey(s.kv[key].doc.transactionId))
    && (forall doc :: doc in s.writes ==> Written(s, doc))
  }

  ghost predicate Inv(c: Config, s: State) {
    Shape(c, s) && Jobs(s) && Replies(c, s) && Kept(s) && Store(s)
  }

  // ---------- every step keeps it ----------

  lemma InitInv(c: Config)
    ensures Inv(c, Init(c))
  {
  }

  lemma GatewayShape(c: Config, s: State, e: Event)
    requires Inv(c, s) && GatewayEnabled(s, e)
    ensures Shape(c, GatewayStep(c, s, e))
  {
    hide S.Replies, K.IsUuid, C.Decoded, Jobs, Replies, Kept, Store;
  }

  lemma SealerShape(c: Config, s: State, e: Event)
    requires Inv(c, s) && SealerEnabled(c, s, e)
    ensures Shape(c, SealerStep(c, s, e))
  {
    hide S.Replies, K.IsUuid, C.Decoded, Jobs, Replies, Kept, Store;
  }

  lemma CacherShape(c: Config, s: State, e: Event)
    requires Inv(c, s) && CacherEnabled(s, e)
    ensures Shape(c, CacherStep(s, e))
  {
    hide S.Replies, K.IsUuid, C.Decoded, Jobs, Replies, Kept, Store;
  }

  lemma StoredAgain(c: Config, s: State, e: Event)
    requires Enabled(c, s, e)
    ensures forall id :: W.Stored(s.seal, id) ==> W.Stored(Step(c, s, e).seal, id)
  {
    hide S.Replies, K.IsUuid, C.Decoded;
    var s' := Step(c, s, e);
    assert s.seal.log <= s'.seal.log;
    forall id | W.Stored(s.seal, id) ensures W.Stored(s'.seal, id) {
      var n :| 0 <= n < |s.seal.log| && s.seal.log[n].id == id;
      assert s'.seal.log[n].id == id;
    }
  }

  /** What only cachers touch. */
  lemma OthersFrame(c: Config, s: State, e: Event)
    requires Enabled(c, s, e) && !CacherEnabled(s, e)
    ensures var s' := Step(c, s, e);
            && s'.kv == s.kv && s'.creators == s.creators && s'.cachers == s.cachers && s'.writes == s.writes
            && s'.saved == s.saved && s'.forfeited == s.forfeited
            && s.cache.log <= s'.cache.log && s.cache.live <= s'.cache.live && s.now <= s'.now
  {
    hide S.Replies, K.IsUuid, C.Decoded;
  }

  /** What cachers never touch. */
  lemma CacherFrame(s: State, e: Event)
    requires CacherEnabled(s, e)
    ensures var s' := CacherStep(s, e);
            && s'.seal == s.seal && s'.gateways == s.gateways && s'.sealers == s.sealers
            && s'.requests == s.requests && s'.counters == s.counters
            && s'.counted == s.counted && s'.returned == s.returned
            && s'.attempts == s.attempts && s'.now == s.now
    ensures var s' := CacherStep(s, e);
            && s'.cache.log == s.cache.log && s'.cache.dedup == s.cache.dedup
            && |s'.cachers| == |s.cachers|
            && (forall j :: 0 <= j < |s.cachers| && j != e.j ==> s'.cachers[j] == s.cachers[j])
  {
    CacherFields(s, e);
    CacherQueue(s, e);
  }

  lemma CacherFields(s: State, e: Event)
    requires CacherEnabled(s, e)
    ensures var s' := CacherStep(s, e);
            && s'.seal == s.seal && s'.gateways == s.gateways && s'.sealers == s.sealers
            && s'.requests == s.requests && s'.counters == s.counters
            && s'.counted == s.counted && s'.returned == s.returned
            && s'.attempts == s.attempts && s'.now == s.now
  {
    hide C.Decoded, R.HSet, R.Expire, R.Live, D.SignedKey, W.Remove;
  }

  lemma CacherQueue(s: State, e: Event)
    requires CacherEnabled(s, e)
    ensures var s' := CacherStep(s, e);
            && s'.cache.log == s.cache.log && s'.cache.dedup == s.cache.dedup
            && |s'.cachers| == |s.cachers|
            && (forall j :: 0 <= j < |s.cachers| && j != e.j ==> s'.cachers[j] == s.cachers[j])
  {
    hide C.Decoded, R.HSet, R.Expire, R.Live, D.SignedKey;
  }

  lemma GatewayJobs(c: Config, s: State, e: Event)
    requires Inv(c, s) && GatewayEnabled(s, e)
    ensures Jobs(GatewayStep(c, s, e))
  {
    hide S.Replies, C.Decoded, Shape, Replies, Kept, Store, K.IsUuid;
    var s' := GatewayStep(c, s, e);
    if e.PublishJob? {
      var pc := s.gateways[e.g];
      W.PublishStores(s.seal, pc.id, Json(SealRequest(pc.id, pc.pdf)), s.now, c.window);
      assert GatewayOk(s, pc);
    }
    StoredAgain(c, s, e);
  }

  lemma SealerJobs(c: Config, s: State, e: Event)
    requires Inv(c, s) && SealerEnabled(c, s, e)
    ensures Jobs(SealerStep(c, s, e))
  {
    hide S.Replies, C.Decoded, Shape, Replies, Kept, Store, K.IsUuid;
    StoredAgain(c, s, e);
  }

  lemma CacherJobs(c: Config, s: State, e: Event)
    requires Inv(c, s) && CacherEnabled(s, e)
    ensures Jobs(CacherStep(s, e))
  {
    hide S.Replies, C.Decoded, Shape, Replies, Kept, Store, K.IsUuid;
    StoredAgain(c, s, e);
  }

  lemma GatewayReplies(c: Config, s: State, e: Event)
    requires Inv(c, s) && GatewayEnabled(s, e)
    ensures Replies(c, GatewayStep(c, s, e))
  {
    hide S.Replies, C.Decoded, Kept, Store, K.IsUuid;
    StoredAgain(c, s, e);
  }

  lemma ReplyFields(lib: P.Library, backend: string, req: SealRequest, reply: SealReply)
    requires S.Replies(lib, backend, req, reply)
    ensures reply.sealerBackend == backend && reply.transactionId == req.transactionId
  {
    S.ReplyShape(lib, backend, req, reply);
  }

  lemma SealerReplies(c: Config, s: State, e: Event)
    requires Inv(c, s) && SealerEnabled(c, s, e)
    ensures Replies(c, SealerStep(c, s, e))
  {
    hide S.Replies, C.Decoded, Kept, Store, K.IsUuid;
    StoredAgain(c, s, e);
    if e.Reply? {
      var m := s.seal.log[s.sealers[e.i].n];
      ReplyFields(c.lib, c.backends[e.i], m.payload.value, e.reply);
      assert JobOk(s.requests, m);
      assert ReplyTo(c, s, m.id, e.reply);
    } else if e.PublishReply? {
      assert SealerOk(c, s, s.sealers[e.i]);
    }
  }

  lemma CacherReplies(c: Config, s: State, e: Event)
    requires Inv(c, s) && CacherEnabled(s, e)
    ensures Replies(c, CacherStep(s, e))
  {
    CacherFrame(s, e);
    CacherLocal(c, s, e);
    ReplyToFrame(c, s, CacherStep(s, e));
    hide ReplyTo, CacherStep, CacherEnabled, Shape, Kept, Store, Jobs, C.Decoded;
  }

  lemma CacherLocal(c: Config, s: State, e: Event)
    requires Inv(c, s) && CacherEnabled(s, e)
    ensures var s' := CacherStep(s, e); CacherOk(s', s'.cachers[e.j])
  {
    hide C.Decoded, Kept, Store, Jobs, D.SignedKey, R.HSet, R.Expire, R.Live, ReplyTo;
    assert CacherOk(s, s.cachers[e.j]);
    if e.Decode? { assert ReplyOk(c, s, s.cache.log[s.cachers[e.j].n]); }
  }

  lemma ReplyToFrame(c: Config, s: State, s': State)
    requires s'.seal == s.seal && s'.requests == s.requests
    ensures forall id, reply :: ReplyTo(c, s, id, reply) ==> ReplyTo(c, s', id, reply)
  {
  }

  // Kept

  lemma GatewayKept(c: Config, s: State, e: Event)
    requires Inv(c, s) && GatewayEnabled(s, e)
    ensures Kept(GatewayStep(c, s, e))
  {
    hide S.Replies, C.Decoded, Store, K.IsUuid, Jobs, Replies;
    var s' := GatewayStep(c, s, e);
    forall id | W.Stored(s'.seal, id) ensures W.Retained(s'.seal, id) || Settled(s', id) {
      if W.Stored(s.seal, id) {
        if W.Retained(s.seal, id) {
          var n :| n in s.seal.live && n < |s.seal.log| && s.seal.log[n].id == id;
          assert s'.seal.log[n].id == id;
        }
      } else {
        var n :| 0 <= n < |s'.seal.log| && s'.seal.log[n].id == id;
        assert n >= |s.seal.log|;
      }
    }
  }

  /** A publish on CACHE settles its id: stored now, or deduplicated and hence settled before. */
  lemma SealerSettles(c: Config, s: State, e: Event, id: string)
    requires Inv(c, s) && SealerEnabled(c, s, e)
    ensures Settled(s, id) ==> Settled(SealerStep(c, s, e), id)
    ensures e.PublishReply? && e.call.reached && id == s.seal.log[s.sealers[e.i].n].id
            ==> Settled(SealerStep(c, s, e), id)
  {
    hide S.Replies, C.Decoded, Store, K.IsUuid, Jobs, Replies;
    var s' := SealerStep(c, s, e);
    if W.Retained(s.cache, id) {
      var n :| n in s.cache.live && n < |s.cache.log| && s.cache.log[n].id == id;
      assert s'.cache.log[n].id == id;
    }
    if e.PublishReply? && e.call.reached && !W.InWindow(s.cache, id, s.now, c.window)
       && id == s.seal.log[s.sealers[e.i].n].id {
      assert s'.cache.log[|s.cache.log|].id == id;
    }
  }

  lemma SealerKept(c: Config, s: State, e: Event)
    requires Inv(c, s) && SealerEnabled(c, s, e)
    ensures Kept(SealerStep(c, s, e))
  {
    hide S.Replies, C.Decoded, Store, K.IsUuid, Jobs, Replies, Settled;
    var s' := SealerStep(c, s, e);
    forall id ensures Settled(s, id) ==> Settled(s', id) { SealerSettles(c, s, e, id); }
    if e.PublishReply? { SealerSettles(c, s, e, s.seal.log[s.sealers[e.i].n].id); }
    forall id | W.Stored(s'.seal, id) ensures W.Retained(s'.seal, id) || Settled(s', id) {
      assert W.Stored(s.seal, id);
      if W.Retained(s.seal, id) && !Settled(s, id) {
        var n :| n in s.seal.live && n < |s.seal.log| && s.seal.log[n].id == id;
        assert s'.seal.log[n].id == id && n in s'.seal.live;
      }
    }
    assert forall id :: id in s'.cache.dedup ==> Settled(s', id);
    assert forall j :: 0 <= j < |s'.cachers| && s'.cachers[j].CAcking? && s'.cachers[j].saved
                       && s'.cachers[j].n < |s'.cache.log|
                    ==> s'.cache.log[s'.cachers[j].n].id in s'.saved;
  }

  lemma CacherSettles(c: Config, s: State, e: Event, id: string)
    requires Inv(c, s) && CacherEnabled(s, e) && Settled(s, id)
    ensures Settled(CacherStep(s, e), id)
  {
    hide S.Replies, C.Decoded, Store, K.IsUuid, Jobs, Replies;
    var s' := CacherStep(s, e);
    if W.Retained(s.cache, id) {
      var n :| n in s.cache.live && n < |s.cache.log| && s.cache.log[n].id == id;
      assert s'.cache.log[n].id == id;
      if n !in s'.cache.live { assert e.AckReply? && s.cachers[e.j].n == n; }
    }
  }

  /** A cacher about to ack as saved has saved the id of its message. */
  lemma CacherSaves(c: Config, s: State, e: Event)
    requires Inv(c, s) && CacherEnabled(s, e)
    ensures var s' := CacherStep(s, e); var pc' := s'.cachers[e.j];
            && s.saved <= s'.saved
            && (pc'.CAcking? && pc'.saved && pc'.n < |s.cache.log| ==> s.cache.log[pc'.n].id in s'.saved)
  {
    hide S.Replies, Store, K.IsUuid, Jobs, R.HSet, R.Expire, R.Live, D.SignedKey;
    if e.Expire? {
      assert CacherOk(s, s.cachers[e.j]);
      var m := s.cache.log[s.cachers[e.j].n];
      assert ReplyOk(c, s, m);
      ReplyFields(c.lib, m.payload.value.sealerBackend, Job(s.requests, m.id), m.payload.value);
    }
  }

  lemma CacherKept(c: Config, s: State, e: Event)
    requires Inv(c, s) && CacherEnabled(s, e)
    ensures Kept(CacherStep(s, e))
  {
    forall id | Settled(s, id) ensures Settled(CacherStep(s, e), id) { CacherSettles(c, s, e, id); }
    CacherFrame(s, e);
    CacherSaves(c, s, e);
    hide Shape, Jobs, Replies, Store, Settled, CacherStep, CacherEnabled;
  }

  // Store

  lemma GatewayStore(c: Config, s: State, e: Event)
    requires Inv(c, s) && GatewayEnabled(s, e)
    ensures Store(GatewayStep(c, s, e))
  {
    hide S.Replies, C.Decoded, Shape, Jobs, Kept, Replies, K.IsUuid;
    var s' := GatewayStep(c, s, e);
    assert s'.kv == s.kv && s'.writes == s.writes && s'.cache == s.cache;
    WrittenGrows(s, s');
  }

  lemma WrittenGrows(s: State, s': State)
    requires s.cache.log <= s'.cache.log
    ensures forall doc :: Written(s, doc) ==> Written(s', doc)
  {
    hide C.Decoded;
    forall doc | Written(s, doc) ensures Written(s', doc) {
      var n :| 0 <= n < |s.cache.log| && C.Decoded(s.cache.log[n].payload) == doc;
      assert s'.cache.log[n] == s.cache.log[n];
    }
  }

  lemma SealerStore(c: Config, s: State, e: Event)
    requires Inv(c, s) && SealerEnabled(c, s, e)
    ensures Store(SealerStep(c, s, e))
  {
    hide S.Replies, C.Decoded, Shape, Jobs, Kept, Replies, K.IsUuid;
    var s' := SealerStep(c, s, e);
    assert s'.kv == s.kv && s'.writes == s.writes && s.cache.log <= s'.cache.log;
    WrittenGrows(s, s');
  }

  lemma CacherStore(c: Config, s: State, e: Event)
    requires Inv(c, s) && CacherEnabled(s, e)
    ensures Store(CacherStep(s, e))
  {
    hide S.Replies, C.Decoded, Shape, Jobs, Kept, K.IsUuid, D.SignedKey, Written;
    var s' := CacherStep(s, e);
    assert s'.cache.log == s.cache.log;
    WrittenGrows(s, s');
    assert CacherOk(s, s.cachers[e.j]);
    if e.HSet? {
      var pc := s.cachers[e.j];
      assert Written(s, pc.doc) by { DecodedIsWritten(s, pc.n); }
    }
  }

  lemma DecodedIsWritten(s: State, n: nat)
    requires n < |s.cache.log|
    ensures Written(s, C.Decoded(s.cache.log[n].payload))
  {
  }

  lemma TickInv(c: Config, s: State, millis: nat)
    requires Inv(c, s)
    ensures Inv(c, s.(now := s.now + millis))
  {
    hide S.Replies, C.Decoded, K.IsUuid;
    var s' := s.(now := s.now + millis);
    ReplyToFrame(c, s, s');
    WrittenGrows(s, s');
    assert forall id :: Settled(s, id) <==> Settled(s', id);
    assert forall pc :: CacherOk(s, pc) <==> CacherOk(s', pc);
    assert forall pc :: GatewayOk(s, pc) <==> GatewayOk(s', pc);
  }

  lemma StepInv(c: Config, s: State, e: Event)
    requires Inv(c, s) && Enabled(c, s, e)
    ensures Inv(c, Step(c, s, e))
  {
    hide Shape, Jobs, Replies, Kept, Store;
    hide GatewayEnabled, SealerEnabled, CacherEnabled, GatewayStep, SealerStep, CacherStep;
    if e.Tick? {
      TickInv(c, s, e.millis);
    } else if GatewayEnabled(s, e) {
      GatewayShape(c, s, e); GatewayJobs(c, s, e); GatewayReplies(c, s, e); GatewayKept(c, s, e); GatewayStore(c, s, e);
    } else if SealerEnabled(c, s, e) {
      SealerShape(c, s, e); SealerJobs(c, s, e); SealerReplies(c, s, e); SealerKept(c, s, e); SealerStore(c, s, e);
    } else {
      CacherShape(c, s, e); CacherJobs(c, s, e); CacherReplies(c, s, e); CacherKept(c, s, e); CacherStore(c, s, e);
    }
  }

  lemma {:induction false} RunInv(c: Config, s: State, events: seq<Event>)
    requires Inv(c, s) && Possible(c, s, events)
    ensures Inv(c, Run(c, s, events))
    decreases |events|
  {
    hide Inv, Enabled, Step;
    if events != [] {
      StepInv(c, s, events[0]);
      RunInv(c, Step(c, s, events[0]), events[1..]);
    }
  }
}
